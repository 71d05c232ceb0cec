/**
 Compound join keys against their components, for rules whose fields have given types: which rules can trust
 the key to tell components apart, and which can trust it to join what the components join.
 */
module CompoundLinks {
  import opened Bytes
  import opened Links

  /** The type of a joined field: an integer of one kind, a string, or an IP address of either length. */
  datatype FieldType = Fixed(kind: Kind) | Text | Address

  predicate Conforms(t: FieldType, v: Link) {
    match t
    case Fixed(k) => v.Num? && v.kind == k && k.Holds(v.n)
    case Text => v.Str?
    case Address => v.Ip? && (|v.address| == 4 || |v.address| == 16)
  }

  predicate AllConform(types: seq<FieldType>, values: seq<Link>) {
    |values| == |types| && forall i :: 0 <= i < |types| ==> Conforms(types[i], values[i])
  }

  /** UTF-8 encodes ASCII as itself and tells strings apart. */
  ghost predicate EncodesText(u: Unicode) {
    && u.utf8('a') == [97] && u.utf8('A') == [65]
    && forall s, t :: Utf8(u, s) == Utf8(u, t) ==> s == t
  }

  /** Folding ignores the case of ASCII letters. */
  predicate FoldsCase(u: Unicode) {
    u.fold('a') == u.fold('A')
  }

  // ---- when the key tells the components apart ----

  /** Equal keys come from equal components. */
  ghost predicate KeySeparates(u: Unicode, types: seq<FieldType>) {
    forall xs, ys :: AllConform(types, xs) && AllConform(types, ys) && CompareLink(u, LinkId(u, xs), LinkId(u, ys))
                     ==> xs == ys
  }

  /** Two fields of types whose values differ in length. */
  predicate TwoVariable(types: seq<FieldType>, p: nat, q: nat) {
    p < q < |types| && !types[p].Fixed? && !types[q].Fixed?
  }

  ghost predicate AtMostOneVariable(types: seq<FieldType>) {
    forall p, q :: !TwoVariable(types, p, q)
  }

  lemma {:induction false} FixedSameShape(u: Unicode, types: seq<FieldType>, xs: seq<Link>, ys: seq<Link>)
    requires AllConform(types, xs) && AllConform(types, ys) && forall i :: 0 <= i < |types| ==> types[i].Fixed?
    ensures SameShape(u, xs, ys) && |AllFieldBytes(u, xs)| == |AllFieldBytes(u, ys)|
  {
    if types != [] {
      FixedSameShape(u, types[1..], xs[1..], ys[1..]);
      ShapeCons(u, xs, ys);
    }
  }

  lemma ShapeCons(u: Unicode, xs: seq<Link>, ys: seq<Link>)
    requires |xs| == |ys| > 0 && SameShape(u, xs[1..], ys[1..])
    requires |FieldBytes(u, xs[0])| == |FieldBytes(u, ys[0])|
    ensures SameShape(u, xs, ys)
  {
    hide FieldBytes;
    forall i | 0 <= i < |xs|
      ensures |FieldBytes(u, xs[i])| == |FieldBytes(u, ys[i])|
    {
      if i > 0 {
        assert xs[1..][i - 1] == xs[i] && ys[1..][i - 1] == ys[i];
      }
    }
  }

  /** With one field of variable length its length follows from that of the whole. */
  lemma {:induction false} OneVariableSameShape(u: Unicode, types: seq<FieldType>, xs: seq<Link>, ys: seq<Link>)
    requires AllConform(types, xs) && AllConform(types, ys) && AtMostOneVariable(types)
    requires |AllFieldBytes(u, xs)| == |AllFieldBytes(u, ys)|
    ensures SameShape(u, xs, ys)
  {
    if types != [] {
      if types[0].Fixed? {
        forall p: nat, q: nat
          ensures !TwoVariable(types[1..], p, q)
        {
          assert !TwoVariable(types, p + 1, q + 1);
        }
        OneVariableSameShape(u, types[1..], xs[1..], ys[1..]);
      } else {
        forall i | 0 <= i < |types[1..]|
          ensures types[1..][i].Fixed?
        {
          assert !TwoVariable(types, 0, i + 1);
        }
        FixedSameShape(u, types[1..], xs[1..], ys[1..]);
      }
      ShapeCons(u, xs, ys);
    }
  }

  lemma FieldInjective(u: Unicode, t: FieldType, x: Link, y: Link)
    requires EncodesText(u) && Conforms(t, x) && Conforms(t, y) && FieldBytes(u, x) == FieldBytes(u, y)
    ensures x == y
  {
    if t.Fixed? {
      NumInjective(u, x, y);
    }
  }

  lemma Separates(u: Unicode, types: seq<FieldType>, xs: seq<Link>, ys: seq<Link>)
    requires KeepsHexDigits(u) && EncodesText(u) && AtMostOneVariable(types) && |types| != 1
    requires AllConform(types, xs) && AllConform(types, ys) && CompareLink(u, LinkId(u, xs), LinkId(u, ys))
    ensures xs == ys
  {
    hide EncodesText, FieldBytes, Conforms;
    CompoundLinkCollisions(u, xs, ys);
    OneVariableSameShape(u, types, xs, ys);
    BytesSplit(u, xs, ys);
    forall i | 0 <= i < |xs|
      ensures xs[i] == ys[i]
    {
      FieldInjective(u, types[i], xs[i], ys[i]);
    }
  }

  // ---- two values of a type that are all the letter `a` ----

  function Letters(n: nat): (b: ByteString)
    ensures |b| == n && forall i :: 0 <= i < n ==> b[i] == 97
  {
    seq(n, _ => 97)
  }

  function LetterNumber(width: nat): (n: nat)
    ensures 2 * n < Capacity(width)
  {
    if width == 0 then 0 else 97 + 256 * LetterNumber(width - 1)
  }

  lemma {:induction false} LetterNumberBytes(width: nat)
    ensures WriteUint(LetterNumber(width), width) == Letters(width)
  {
    if width > 0 {
      LetterNumberBytes(width - 1);
      assert LetterNumber(width) / 256 == LetterNumber(width - 1) && LetterNumber(width) % 256 == 97;
      assert [97] + Letters(width - 1) == Letters(width);
    }
  }

  lemma {:induction false} LetterText(u: Unicode, n: nat)
    requires EncodesText(u)
    ensures Utf8(u, seq(n, _ => 'a')) == Letters(n)
  {
    var s := seq(n, _ => 'a');
    if n > 0 {
      LetterText(u, n - 1);
      assert s[1..] == seq(n - 1, _ => 'a');
      assert [97] + Letters(n - 1) == Letters(n);
    }
  }

  /** `size` is the number of bytes where the type leaves it open. */
  function Fill(t: FieldType, size: nat): Link {
    match t
    case Fixed(k) => Num(k, LetterNumber(k.Width()))
    case Text => Str(seq(size, _ => 'a'))
    case Address => Ip(Letters(size))
  }

  function Size(t: FieldType, size: nat): nat {
    if t.Fixed? then t.kind.Width() else size
  }

  lemma FillNumber(u: Unicode, k: Kind, size: nat)
    ensures Conforms(Fixed(k), Fill(Fixed(k), size))
    ensures FieldBytes(u, Fill(Fixed(k), size)) == Letters(Size(Fixed(k), size))
  {
    hide Utf8, Letters, WriteUint;
    var w := k.Width();
    ModUnique(LetterNumber(w), Capacity(w), 0, LetterNumber(w));
    LetterNumberBytes(w);
  }

  lemma FillText(u: Unicode, size: nat)
    requires EncodesText(u)
    ensures Conforms(Text, Fill(Text, size)) && FieldBytes(u, Fill(Text, size)) == Letters(size)
  {
    hide EncodesText, Utf8, Letters, WriteUint, Capacity;
    LetterText(u, size);
  }

  lemma FillAddress(u: Unicode, size: nat)
    requires size == 4 || size == 16
    ensures Conforms(Address, Fill(Address, size)) && FieldBytes(u, Fill(Address, size)) == Letters(size)
  {
    hide Utf8, WriteUint, Capacity;
  }

  lemma FillConforms(u: Unicode, t: FieldType, size: nat)
    requires EncodesText(u) && (size == 4 || size == 16)
    ensures Conforms(t, Fill(t, size))
    ensures FieldBytes(u, Fill(t, size)) == Letters(Size(t, size))
  {
    hide EncodesText, Conforms, Fill, FieldBytes, Letters;
    match t
    case Fixed(k) => FillNumber(u, k, size);
    case Text => FillText(u, size);
    case Address => FillAddress(u, size);
  }

  /** The values of a record: every field of open length has four bytes, except that `p` has sixteen. */
  function Filled(types: seq<FieldType>, p: nat): (values: seq<Link>)
    ensures |values| == |types|
  {
    seq(|types|, i requires 0 <= i < |types| => Fill(types[i], if i == p then 16 else 4))
  }

  function FilledSize(types: seq<FieldType>, p: nat): nat {
    if types == [] then 0
    else
      var n := |types| - 1;
      FilledSize(types[..n], p) + Size(types[n], if n == p then 16 else 4)
  }

  lemma FilledConforms(u: Unicode, types: seq<FieldType>, p: nat)
    requires EncodesText(u)
    ensures AllConform(types, Filled(types, p))
  {
    hide EncodesText, Fill, Conforms;
    forall i | 0 <= i < |types|
      ensures Conforms(types[i], Filled(types, p)[i])
    {
      FillConforms(u, types[i], if i == p then 16 else 4);
    }
  }

  lemma LettersAdd(m: nat, n: nat)
    ensures Letters(m) + Letters(n) == Letters(m + n)
  {
  }

  lemma FilledSnoc(types: seq<FieldType>, p: nat)
    requires types != []
    ensures var n := |types| - 1;
            Filled(types, p) == Filled(types[..n], p) + [Fill(types[n], if n == p then 16 else 4)]
  {
    hide Fill;
  }

  lemma {:induction false} FilledBytes(u: Unicode, types: seq<FieldType>, p: nat)
    requires EncodesText(u)
    ensures AllFieldBytes(u, Filled(types, p)) == Letters(FilledSize(types, p))
  {
    if types != [] {
      hide EncodesText, FieldBytes, AllFieldBytes, Fill, Filled, Conforms, Letters, Size;
      var n := |types| - 1;
      FilledBytes(u, types[..n], p);
      var size := if n == p then 16 else 4;
      FilledSnoc(types, p);
      BytesSnoc(u, Filled(types[..n], p), Fill(types[n], size));
      FillConforms(u, types[n], size);
      LettersAdd(FilledSize(types[..n], p), Size(types[n], size));
    }
  }

  /** It does not matter which of the fields of open length is the longer one. */
  lemma {:induction false} FilledSizeOf(types: seq<FieldType>, p: nat)
    ensures FilledSize(types, p) == FilledSize(types, |types|) + if p < |types| && !types[p].Fixed? then 12 else 0
  {
    if types != [] {
      var n := |types| - 1;
      FilledSizeOf(types[..n], p);
      FilledSizeOf(types[..n], n + 1);
      FilledSizeOf(types[..n], n);
    }
  }

  lemma Collides(u: Unicode, types: seq<FieldType>, p: nat, q: nat)
    requires KeepsHexDigits(u) && EncodesText(u) && TwoVariable(types, p, q)
    ensures !KeySeparates(u, types)
  {
    var xs, ys := Filled(types, p), Filled(types, q);
    FilledBytes(u, types, p);
    FilledBytes(u, types, q);
    FilledConforms(u, types, p);
    FilledConforms(u, types, q);
    FilledSizeOf(types, p);
    FilledSizeOf(types, q);
    CompoundLinkCollisions(u, xs, ys);
    assert xs[p] == Fill(types[p], 16) && ys[p] == Fill(types[p], 4);
    assert xs[p] != ys[p] by {
      if types[p].Text? {
        assert |xs[p].s| == 16 && |ys[p].s| == 4;
      }
    }
  }

  /** A compound key tells its components apart exactly when at most one of its fields has values of varying length. */
  lemma KeySeparatesExactly(u: Unicode, types: seq<FieldType>)
    requires KeepsHexDigits(u) && EncodesText(u) && |types| >= 2
    ensures KeySeparates(u, types) <==> AtMostOneVariable(types)
  {
    hide EncodesText, KeepsHexDigits, AllConform, TwoVariable;
    if AtMostOneVariable(types) {
      forall xs, ys |
        AllConform(types, xs) && AllConform(types, ys) && CompareLink(u, LinkId(u, xs), LinkId(u, ys))
        ensures xs == ys
      {
        Separates(u, types, xs, ys);
      }
    } else {
      var p, q :| TwoVariable(types, p, q);
      Collides(u, types, p, q);
    }
  }

  // ---- when the key joins what the components join ----

  predicate ComponentsJoin(u: Unicode, xs: seq<Link>, ys: seq<Link>) {
    |xs| == |ys| && forall i :: 0 <= i < |xs| ==> CompareLink(u, xs[i], ys[i])
  }

  /** Components that join one by one have equal keys. */
  ghost predicate KeyFollows(u: Unicode, types: seq<FieldType>) {
    forall xs, ys :: AllConform(types, xs) && AllConform(types, ys) && ComponentsJoin(u, xs, ys)
                     ==> CompareLink(u, LinkId(u, xs), LinkId(u, ys))
  }

  /** The comparison has a case for the type. */
  predicate Joinable(t: FieldType) {
    t.Fixed? ==> t.kind.Comparable()
  }

  /** A value, and another form of it that the comparison accepts: in capitals, or as a mapped address. */
  function OtherForm(t: FieldType): Link {
    match t
    case Fixed(_) => Fill(t, 4)
    case Text => Str("aaaA")
    case Address => Ip(V4_IN_V6_PREFIX + Letters(4))
  }

  lemma OtherFormJoins(u: Unicode, t: FieldType)
    requires EncodesText(u) && FoldsCase(u) && Joinable(t)
    ensures Conforms(t, Fill(t, 4)) && Conforms(t, OtherForm(t))
    ensures CompareLink(u, Fill(t, 4), Fill(t, 4)) && CompareLink(u, Fill(t, 4), OtherForm(t))
    ensures FieldBytes(u, Fill(t, 4)) == FieldBytes(u, OtherForm(t)) <==> t.Fixed?
  {
    FillConforms(u, t, 4);
    match t
    case Text =>
      assert Fill(t, 4).s == "aaaa";
      assert forall i :: 0 <= i < 4 ==> u.fold("aaaa"[i]) == u.fold("aaaA"[i]);
      assert "aaaa"[3] != "aaaA"[3];
    case _ =>
  }

  /** All fields in their first form but one. */
  function Varied(types: seq<FieldType>, p: nat): (values: seq<Link>)
    ensures |values| == |types|
  {
    seq(|types|, i requires 0 <= i < |types| => if i == p then OtherForm(types[i]) else Fill(types[i], 4))
  }

  lemma VariedJoins(u: Unicode, types: seq<FieldType>, p: nat)
    requires EncodesText(u) && FoldsCase(u) && forall i :: 0 <= i < |types| ==> Joinable(types[i])
    ensures var xs, ys := Filled(types, |types|), Varied(types, p);
            AllConform(types, xs) && AllConform(types, ys) && ComponentsJoin(u, xs, ys)
  {
    hide EncodesText, Fill, OtherForm, Conforms, CompareLink, Joinable;
    forall i | 0 <= i < |types|
      ensures var xs, ys := Filled(types, |types|), Varied(types, p);
              Conforms(types[i], xs[i]) && Conforms(types[i], ys[i]) && CompareLink(u, xs[i], ys[i])
    {
      OtherFormJoins(u, types[i]);
    }
  }

  /** The encodings agree up to the field, and differ there. */
  lemma VariedDiffers(u: Unicode, types: seq<FieldType>, p: nat)
    requires EncodesText(u) && FoldsCase(u) && p < |types| && !types[p].Fixed?
    ensures AllFieldBytes(u, Filled(types, |types|)) != AllFieldBytes(u, Varied(types, p))
  {
    hide EncodesText, FieldBytes, Fill, OtherForm;
    var xs, ys := Filled(types, |types|), Varied(types, p);
    BytesAround(u, xs, p);
    BytesAround(u, ys, p);
    assert xs[..p] == ys[..p] && xs[p + 1..] == ys[p + 1..];
    OtherFormJoins(u, types[p]);
    Sandwich(AllFieldBytes(u, xs[..p]), FieldBytes(u, xs[p]), FieldBytes(u, ys[p]), AllFieldBytes(u, xs[p + 1..]));
  }

  lemma {:induction false} BytesAppend(u: Unicode, xs: seq<Link>, ys: seq<Link>)
    ensures AllFieldBytes(u, xs + ys) == AllFieldBytes(u, xs) + AllFieldBytes(u, ys)
  {
    hide FieldBytes;
    if xs == [] {
      assert xs + ys == ys;
    } else {
      BytesAppend(u, xs[1..], ys);
      assert (xs + ys)[1..] == xs[1..] + ys;
    }
  }

  lemma BytesAround(u: Unicode, xs: seq<Link>, p: nat)
    requires p < |xs|
    ensures AllFieldBytes(u, xs) == AllFieldBytes(u, xs[..p]) + FieldBytes(u, xs[p]) + AllFieldBytes(u, xs[p + 1..])
  {
    assert xs == xs[..p + 1] + xs[p + 1..] && xs[..p + 1] == xs[..p] + [xs[p]];
    hide AllFieldBytes, FieldBytes;
    BytesAppend(u, xs[..p + 1], xs[p + 1..]);
    BytesSnoc(u, xs[..p], xs[p]);
  }

  lemma Sandwich(a: ByteString, x: ByteString, y: ByteString, z: ByteString)
    ensures a + x + z == a + y + z <==> x == y
  {
    if a + x + z == a + y + z {
      assert |x| == |y|;
      assert (a + x + z)[|a|..|a| + |x|] == x && (a + y + z)[|a|..|a| + |y|] == y;
    }
  }

  lemma IntegersFollow(u: Unicode, types: seq<FieldType>, xs: seq<Link>, ys: seq<Link>)
    requires KeepsHexDigits(u) && |types| != 1 && AllConform(types, xs) && ComponentsJoin(u, xs, ys)
    requires forall i :: 0 <= i < |types| ==> types[i].Fixed?
    ensures CompareLink(u, LinkId(u, xs), LinkId(u, ys))
  {
    assert xs == ys;
    CompoundLinkCollisions(u, xs, ys);
  }

  /**
   The key joins what the components join exactly for rules that join on integers alone, or on a type that never
   joins: folded letters and mapped addresses are equal as components and different in the key.
   */
  lemma KeyFollowsExactly(u: Unicode, types: seq<FieldType>)
    requires KeepsHexDigits(u) && EncodesText(u) && FoldsCase(u) && |types| >= 2
    ensures KeyFollows(u, types) <==>
              || (forall i :: 0 <= i < |types| ==> types[i].Fixed?)
              || (exists i :: 0 <= i < |types| && !Joinable(types[i]))
  {
    hide EncodesText, KeepsHexDigits, FieldBytes, AllFieldBytes, Joinable;
    if forall i :: 0 <= i < |types| ==> types[i].Fixed? {
      forall xs, ys | AllConform(types, xs) && AllConform(types, ys) && ComponentsJoin(u, xs, ys)
        ensures CompareLink(u, LinkId(u, xs), LinkId(u, ys))
      {
        IntegersFollow(u, types, xs, ys);
      }
    } else if j: nat :| j < |types| && !Joinable(types[j]) {
      forall xs, ys | AllConform(types, xs) && AllConform(types, ys)
        ensures !ComponentsJoin(u, xs, ys)
      {
        NeverJoins(u, types[j], xs[j], ys[j]);
      }
    } else {
      var p: nat :| p < |types| && !types[p].Fixed?;
      VariedJoins(u, types, p);
      VariedDiffers(u, types, p);
      CompoundLinkCollisions(u, Filled(types, |types|), Varied(types, p));
    }
  }

  lemma NeverJoins(u: Unicode, t: FieldType, x: Link, y: Link)
    requires !Joinable(t) && Conforms(t, x)
    ensures !CompareLink(u, x, y)
  {
  }
}
