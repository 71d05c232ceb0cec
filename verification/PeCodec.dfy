/**
 The binary form of Portable Executable metadata: one pass that appends, one that reads back by accumulated offsets.
 */
module PeCodec {
  import opened Options
  import opened Bytes
  import opened Codec

  /** `entropy` is the bit pattern of the floating-point value. */
  datatype Section = Section(size: nat, entropy: nat, name: ByteString, md5: ByteString)

  /** Times are their RFC 3339 text. */
  datatype Cert = Cert(
    notBefore: ByteString, notAfter: ByteString, serial: ByteString, subject: ByteString, issuer: ByteString)

  datatype Pe = Pe(
    numberOfSections: nat, numberOfSymbols: nat,
    imageBase: ByteString, entryPoint: ByteString, linkTime: ByteString,
    sections: seq<Section>, symbols: seq<ByteString>, imports: seq<ByteString>,
    resources: map<ByteString, ByteString>,
    isSigned: bool, isTrusted: bool, cert: Option<Cert>,
    isDriver: bool, isDll: bool, isExecutable: bool, isDotnet: bool,
    imphash: ByteString, anomalies: seq<ByteString>)

  const EMPTY_PE := Pe(0, 0, [], [], [], [], [], [], map[], false, false, None, false, false, false, false, [], [])

  const PE_SEC_V2: nat := 2

  // ---- the layout ----

  function SectionBytes(s: Section): ByteString {
    U32(s.size) + (U64(s.entropy) + (Text(s.name) + Text(s.md5)))
  }

  function CertBytes(c: Cert): ByteString {
    Text(c.notBefore) + (Text(c.notAfter) + (Text(c.serial) + (Text(c.subject) + Text(c.issuer))))
  }

  function CertData(p: Pe): ByteString {
    if p.cert.Some? then CertBytes(p.cert.value) else []
  }

  function ResourceBytes(p: Pe): ByteString -> ByteString {
    key => Text(key) + Text(if key in p.resources then p.resources[key] else [])
  }

  function Bits(p: Pe): ByteString {
    Flag(p.isDriver) + (Flag(p.isDll) + (Flag(p.isExecutable) + Flag(p.isDotnet)))
  }

  // Each of the following is the layout from one field to the end; `keys` is the order of the resource map.

  function FromAnomalies(p: Pe): ByteString {
    U16(|p.anomalies|) + Concat(p.anomalies, Text)
  }

  function FromImphash(p: Pe): ByteString {
    Text(p.imphash) + FromAnomalies(p)
  }

  function FromBits(p: Pe): ByteString {
    Bits(p) + FromImphash(p)
  }

  function FromCert(p: Pe): ByteString {
    U32(|CertData(p)|) + (CertData(p) + FromBits(p))
  }

  function FromSigned(p: Pe): ByteString {
    Flag(p.isSigned) + (Flag(p.isTrusted) + FromCert(p))
  }

  function FromResources(p: Pe, keys: seq<ByteString>): ByteString {
    U16(|keys|) + (Concat(keys, ResourceBytes(p)) + FromSigned(p))
  }

  function FromImports(p: Pe, keys: seq<ByteString>): ByteString {
    U16(|p.imports|) + (Concat(p.imports, Text) + FromResources(p, keys))
  }

  function FromSymbols(p: Pe, keys: seq<ByteString>): ByteString {
    U16(|p.symbols|) + (Concat(p.symbols, Text) + FromImports(p, keys))
  }

  function FromSections(p: Pe, keys: seq<ByteString>): ByteString {
    U16(|p.sections|) + (Concat(p.sections, SectionBytes) + FromSymbols(p, keys))
  }

  function FromTexts(p: Pe, keys: seq<ByteString>): ByteString {
    Text(p.imageBase) + (Text(p.entryPoint) + (Text(p.linkTime) + FromSections(p, keys)))
  }

  function Layout(p: Pe, keys: seq<ByteString>): ByteString {
    U16(p.numberOfSections) + (U32(p.numberOfSymbols) + FromTexts(p, keys))
  }

  // ---- writing ----

  method MarshalCert(c: Cert) returns (b: ByteString)
    ensures b == CertBytes(c)
  {
    b := [];
    b := b + Text(c.notBefore);
    b := b + Text(c.notAfter);
    b := b + Text(c.serial);
    b := b + Text(c.subject);
    b := b + Text(c.issuer);
  }

  method MarshalHeader(p: Pe, keys: seq<ByteString>) returns (b: ByteString)
    ensures b + FromSections(p, keys) == Layout(p, keys)
  {
    hide U16, U32, Text, FromSections;
    b := [];
    b := b + U16(p.numberOfSections);
    b := b + U32(p.numberOfSymbols);
    b := b + Text(p.imageBase);
    b := b + Text(p.entryPoint);
    b := b + Text(p.linkTime);
  }

  method MarshalLists(b: ByteString, p: Pe, keys: seq<ByteString>) returns (r: ByteString)
    ensures r + FromSigned(p) == b + FromSections(p, keys)
  {
    hide U16, Text, Concat, ResourceBytes, FromSigned;
    r := MarshalList(b, p.sections, SectionBytes, FromSymbols(p, keys));
    r := MarshalList(r, p.symbols, Text, FromImports(p, keys));
    r := MarshalList(r, p.imports, Text, FromResources(p, keys));
    r := MarshalList(r, keys, ResourceBytes(p), FromSigned(p));
  }

  method MarshalSigned(b: ByteString, p: Pe) returns (r: ByteString)
    ensures r + FromBits(p) == b + FromSigned(p)
  {
    hide U32, Flag, CertBytes, FromBits;
    r := b + Flag(p.isSigned);
    r := r + Flag(p.isTrusted);
    if p.cert.Some? {
      var crt := MarshalCert(p.cert.value);
      r := r + U32(|crt|);
      r := r + crt;
    } else {
      r := r + U32(0);
    }
  }

  method MarshalBits(b: ByteString, p: Pe) returns (r: ByteString)
    ensures r + FromImphash(p) == b + FromBits(p)
  {
    hide Flag, FromImphash;
    r := b + Flag(p.isDriver);
    r := r + Flag(p.isDll);
    r := r + Flag(p.isExecutable);
    r := r + Flag(p.isDotnet);
  }

  method Marshal(p: Pe, keys: seq<ByteString>) returns (b: ByteString)
    ensures b == Layout(p, keys)
  {
    hide Layout, U16, Text, Concat, FromSections, FromSigned, FromBits;
    b := MarshalHeader(p, keys);
    b := MarshalLists(b, p, keys);
    b := MarshalSigned(b, p);
    b := MarshalBits(b, p);
    b := b + Text(p.imphash);
    b := MarshalList(b, p.anomalies, Text, []);
    Nothing(b);
    Nothing(Concat(p.anomalies, Text));
  }

  // ---- reading ----

  predicate FitsSection(s: Section) {
    s.size < LIMIT32 && s.entropy < LIMIT64 && |s.name| < LIMIT16 && |s.md5| < LIMIT16
  }

  lemma SectionAt(b: ByteString, at: nat, s: Section, rest: ByteString)
    requires FitsSection(s) && rest != [] && Ahead(b, at, SectionBytes(s) + rest)
    ensures TakeUint(b, at, 4) == Some(s.size) && TakeUint(b, at + 4, 8) == Some(s.entropy)
    ensures TakeUint(b, at + 12, 2) == Some(|s.name|) && TakeText(b, at + 14, |s.name|) == Some(s.name)
    ensures TakeUint(b, at + 14 + |s.name|, 2) == Some(|s.md5|)
    ensures TakeText(b, at + 16 + |s.name|, |s.md5|) == Some(s.md5)
    ensures at + 16 + |s.name| + |s.md5| <= |b| && Ahead(b, at + 16 + |s.name| + |s.md5|, rest)
  {
    hide U32, U64, Ahead, TakeUint, TakeText;
    Assoc(U32(s.size), U64(s.entropy) + (Text(s.name) + Text(s.md5)), rest);
    Assoc(U64(s.entropy), Text(s.name) + Text(s.md5), rest);
    Assoc(Text(s.name), Text(s.md5), rest);
    U32At(b, at, s.size, U64(s.entropy) + (Text(s.name) + (Text(s.md5) + rest)));
    U64At(b, at + 4, s.entropy, Text(s.name) + (Text(s.md5) + rest));
    TextAt(b, at + 12, s.name, Text(s.md5) + rest);
    TextAt(b, at + 14 + |s.name|, s.md5, rest);
  }

  method ReadSection(b: ByteString, offset: nat, so: nat, ghost sec: Section, ghost rest: ByteString)
    returns (r: Option<Section>, soffset: nat)
    ensures |b| < LIMIT32 && FitsSection(sec) && rest != [] && Ahead(b, 14 + offset + so, SectionBytes(sec) + rest)
            ==> r == Some(sec) && Ahead(b, 14 + offset + soffset, rest)
  {
    hide SectionBytes, TakeUint, TakeText, Ahead, Wrap32, FitsSection;
    WrapSmall();
    if |b| < LIMIT32 && FitsSection(sec) && rest != [] && Ahead(b, 14 + offset + so, SectionBytes(sec) + rest) {
      SectionAt(b, 14 + offset + so, sec, rest);
    }
    soffset := so;
    var size := TakeUint(b, Wrap32(14 + offset + soffset), 4);
    var entropy := TakeUint(b, Wrap32(18 + offset + soffset), 8);
    var l := TakeUint(b, Wrap32(26 + offset + soffset), 2);
    if size.None? || entropy.None? || l.None? {
      return None, 0;
    }
    var name := TakeText(b, Wrap32(28 + offset + soffset), l.value);
    soffset := Wrap32(soffset + l.value);
    l := TakeUint(b, Wrap32(28 + offset + soffset), 2);
    if name.None? || l.None? {
      return None, 0;
    }
    var md5 := TakeText(b, Wrap32(30 + offset + soffset), l.value);
    soffset := Wrap32(soffset + l.value);
    if md5.None? {
      return None, 0;
    }
    soffset := Wrap32(soffset + 4 + 8 + 2 + 2);
    r := Some(Section(size.value, entropy.value, name.value, md5.value));
  }

  /** One round of the section loop. */
  method ReadListedSection(
    b: ByteString, offset: nat, so: nat, ghost secs: seq<Section>, ghost n: nat, ghost rest: ByteString)
    returns (r: Option<Section>, soffset: nat)
    ensures && ItemsAhead(b, 14 + offset + so, secs, n, SectionBytes, rest) && n < |secs| && FitsSection(secs[n])
            && rest != []
            ==> r == Some(secs[n]) && ItemsAhead(b, 14 + offset + soffset, secs, n + 1, SectionBytes, rest)
  {
    hide Concat, SectionBytes, Ahead, FitsSection;
    ghost var sec, tail := Section(0, 0, [], []), rest;
    if ItemsAhead(b, 14 + offset + so, secs, n, SectionBytes, rest) && n < |secs| {
      ListNext(b, 14 + offset + so, secs, n, SectionBytes, rest);
      sec, tail := secs[n], Concat(secs[n + 1..], SectionBytes) + rest;
    }
    r, soffset := ReadSection(b, offset, so, sec, tail);
  }

  predicate SectionsAhead(b: ByteString, at: nat, secs: seq<Section>, rest: ByteString) {
    ListAhead(b, at, secs, SectionBytes, rest) && (forall i :: 0 <= i < |secs| ==> FitsSection(secs[i])) && rest != []
  }

  method ReadSections(b: ByteString, offset: nat, ghost secs: seq<Section>, ghost rest: ByteString)
    returns (r: Option<seq<Section>>, soffset: nat)
    ensures SectionsAhead(b, 12 + offset, secs, rest) ==> r == Some(secs) && Ahead(b, 14 + offset + soffset, rest)
  {
    hide ListAhead, ItemsAhead, FitsSection, Ahead, TakeUint, SectionBytes;
    ghost var good := SectionsAhead(b, 12 + offset, secs, rest);
    if good {
      ListBegins(b, 12 + offset, secs, SectionBytes, rest);
    }
    soffset := 0;
    var nsections := TakeUint(b, Wrap32(12 + offset), 2);
    if nsections.None? {
      return None, 0;
    }
    var sections: seq<Section> := [];
    for nsec := 0 to nsections.value
      invariant good ==> nsections.value == |secs| && sections == secs[..nsec]
      invariant good ==> ItemsAhead(b, 14 + offset + soffset, secs, nsec, SectionBytes, rest)
    {
      var sec;
      sec, soffset := ReadListedSection(b, offset, soffset, secs, nsec, rest);
      if sec.None? {
        return None, 0;
      }
      sections := sections + [sec.value];
    }
    r := Some(sections);
    if good {
      assert secs[..|secs|] == secs;
      ListEnds(b, 14 + offset + soffset, secs, SectionBytes, rest);
    }
  }

  /** The symbol and import loops add the length and its prefix in 16 bits, which must not overflow. */
  predicate FitsShortText(s: ByteString) {
    |s| + 2 < LIMIT16
  }

  /** How far those loops move on for a text of the given length. */
  function ShortStep(length: nat): nat {
    (length + 2) % LIMIT16
  }

  /** They stay on the encoder's tracks exactly for texts of up to 65533 bytes. */
  lemma ShortStepExactly(s: ByteString)
    requires FitsText(s)
    ensures ShortStep(|s|) == |Text(s)| <==> FitsShortText(s)
  {
    TextSize(s);
  }

  /** One round of the symbol and import loops: the text comes back, but a longer one makes the loop lose its place. */
  method ReadListed(b: ByteString, at: nat, to: nat, ghost xs: seq<ByteString>, ghost n: nat, ghost rest: ByteString)
    returns (r: Option<ByteString>, toffset: nat)
    ensures && ItemsAhead(b, at + to, xs, n, Text, rest) && n < |xs| && FitsText(xs[n]) && rest != []
            ==> && r == Some(xs[n])
                && (ItemsAhead(b, at + toffset, xs, n + 1, Text, rest) <==> FitsShortText(xs[n]))
  {
    hide Concat, Text, TakeUint, Wrap32;
    WrapSmall();
    ghost var x, tail := [], rest;
    if ItemsAhead(b, at + to, xs, n, Text, rest) && n < |xs| {
      ListNext(b, at + to, xs, n, Text, rest);
      x, tail := xs[n], Concat(xs[n + 1..], Text) + rest;
    }
    r := ReadText(b, at + to, x, tail);
    if r.None? {
      return None, 0;
    }
    toffset := Wrap32(to + ShortStep(|r.value|));
    if ItemsAhead(b, at + to, xs, n, Text, rest) && n < |xs| && FitsText(xs[n]) && rest != [] {
      OnlyThere(b, at + to + 2 + |x|, at + toffset, tail);
    }
  }

  /** The same bytes lie ahead of one offset only. */
  lemma OnlyThere(b: ByteString, at: nat, at': nat, rest: ByteString)
    requires Ahead(b, at, rest)
    ensures Ahead(b, at', rest) <==> at' == at
  {
  }

  /** A list of texts, all but the last of them short, lies ahead. */
  predicate TextsAhead(b: ByteString, at: nat, xs: seq<ByteString>, rest: ByteString) {
    && ListAhead(b, at, xs, Text, rest) && rest != []
    && (forall i :: 0 <= i < |xs| - 1 ==> FitsShortText(xs[i])) && (xs != [] ==> FitsText(xs[|xs| - 1]))
  }

  predicate LastShort(xs: seq<ByteString>) {
    xs != [] ==> FitsShortText(xs[|xs| - 1])
  }

  lemma ShortFits(s: ByteString)
    requires FitsShortText(s)
    ensures FitsText(s)
  {
  }

  lemma ListEndsExactly(b: ByteString, at: nat, xs: seq<ByteString>, rest: ByteString)
    requires |b| < LIMIT32
    ensures ItemsAhead(b, at, xs, |xs|, Text, rest) <==> Ahead(b, at, rest)
  {
    ConcatEnds(xs, Text);
    Nothing(rest);
  }

  /**
   The symbol and import loops, which differ in where they start. After a last text that is too long the place is lost.
   */
  method ReadTexts(b: ByteString, base: nat, offset: nat, ghost xs: seq<ByteString>, ghost rest: ByteString)
    returns (r: Option<seq<ByteString>>, toffset: nat)
    ensures TextsAhead(b, base + offset, xs, rest)
            ==> r == Some(xs) && (Ahead(b, base + 2 + offset + toffset, rest) <==> LastShort(xs))
  {
    hide ListAhead, ItemsAhead, FitsShortText, FitsText, Ahead, TakeUint, Text;
    ghost var good := TextsAhead(b, base + offset, xs, rest);
    if good {
      ListBegins(b, base + offset, xs, Text, rest);
      ListIsSmall(b, base + offset, xs, rest);
    }
    toffset := 0;
    var count := TakeUint(b, Wrap32(base + offset), 2);
    if count.None? {
      return None, 0;
    }
    var texts: seq<ByteString> := [];
    for n := 0 to count.value
      invariant good ==> count.value == |xs| && texts == xs[..n]
      invariant good && n < |xs| ==> ItemsAhead(b, base + 2 + offset + toffset, xs, n, Text, rest)
      invariant good && n == |xs| ==>
                  (ItemsAhead(b, base + 2 + offset + toffset, xs, n, Text, rest) <==> LastShort(xs))
    {
      if good && n < |xs| - 1 {
        ShortFits(xs[n]);
      }
      var text;
      text, toffset := ReadListed(b, base + 2 + offset, toffset, xs, n, rest);
      if text.None? {
        return None, 0;
      }
      texts := texts + [text.value];
    }
    r := Some(texts);
    if good {
      assert xs[..|xs|] == xs;
      ListEndsExactly(b, base + 2 + offset + toffset, xs, rest);
    }
  }

  lemma ListIsSmall(b: ByteString, at: nat, xs: seq<ByteString>, rest: ByteString)
    requires ListAhead(b, at, xs, Text, rest)
    ensures |b| < LIMIT32
  {
  }

  /** What the resource loop stores: pairs with an empty key or an empty value are passed over. */
  function Stored(p: Pe, keys: seq<ByteString>): map<ByteString, ByteString> {
    if keys == [] then map[]
    else
      var rest := Stored(p, keys[..|keys| - 1]);
      var key := keys[|keys| - 1];
      if key != [] && key in p.resources && p.resources[key] != [] then rest[key := p.resources[key]] else rest
  }

  /** The resources that survive. */
  function Kept(p: Pe): map<ByteString, ByteString> {
    map key | key in p.resources && key != [] && p.resources[key] != [] :: p.resources[key]
  }

  lemma {:induction false} StoredKeys(p: Pe, keys: seq<ByteString>)
    ensures forall key :: key in Stored(p, keys) <==>
              key in keys && key != [] && key in p.resources && p.resources[key] != []
    ensures forall key :: key in Stored(p, keys) ==> Stored(p, keys)[key] == p.resources[key]
  {
    if keys != [] {
      StoredKeys(p, keys[..|keys| - 1]);
      assert keys == keys[..|keys| - 1] + [keys[|keys| - 1]];
    }
  }

  lemma StoredAll(p: Pe, keys: seq<ByteString>)
    requires forall key :: key in p.resources <==> key in keys
    ensures Stored(p, keys) == Kept(p)
  {
    StoredKeys(p, keys);
  }

  lemma StoredNext(p: Pe, keys: seq<ByteString>, n: nat)
    requires n < |keys| && keys[n] in p.resources
    ensures Stored(p, keys[..n + 1]) == if keys[n] != [] && p.resources[keys[n]] != []
                                        then Stored(p, keys[..n])[keys[n] := p.resources[keys[n]]]
                                        else Stored(p, keys[..n])
  {
    assert keys[..n + 1][..n] == keys[..n];
  }

  predicate FitsResource(p: Pe, key: ByteString) {
    key in p.resources && FitsText(key) && FitsText(p.resources[key])
  }

  lemma ResourceAt(b: ByteString, at: nat, p: Pe, key: ByteString, rest: ByteString)
    requires FitsResource(p, key) && rest != [] && Ahead(b, at, ResourceBytes(p)(key) + rest)
    ensures var value := p.resources[key];
            && TakeUint(b, at, 2) == Some(|key|) && TakeText(b, at + 2, |key|) == Some(key)
            && TakeUint(b, at + 2 + |key|, 2) == Some(|value|)
            && TakeText(b, at + 4 + |key|, |value|) == Some(value)
            && at + 4 + |key| + |value| <= |b| && Ahead(b, at + 4 + |key| + |value|, rest)
  {
    hide Ahead, TakeUint, TakeText;
    var value := p.resources[key];
    Assoc(Text(key), Text(value), rest);
    TextAt(b, at, key, Text(value) + rest);
    TextAt(b, at + 2 + |key|, value, rest);
  }

  method ReadResource(b: ByteString, offset: nat, ro: nat, ghost p: Pe, ghost k: ByteString, ghost rest: ByteString)
    returns (r: Option<(ByteString, ByteString)>, roffset: nat)
    ensures |b| < LIMIT32 && FitsResource(p, k) && rest != [] && Ahead(b, 20 + offset + ro, ResourceBytes(p)(k) + rest)
            ==> r == Some((k, p.resources[k])) && Ahead(b, 20 + offset + roffset, rest)
  {
    hide TakeUint, TakeText, Ahead, Wrap32, ResourceBytes, FitsText;
    WrapSmall();
    if |b| < LIMIT32 && FitsResource(p, k) && rest != [] && Ahead(b, 20 + offset + ro, ResourceBytes(p)(k) + rest) {
      ResourceAt(b, 20 + offset + ro, p, k, rest);
    }
    roffset := ro;
    var klen := TakeUint(b, Wrap32(20 + offset + roffset), 2);
    if klen.None? {
      return None, 0;
    }
    var key := TakeText(b, Wrap32(22 + offset + roffset), klen.value);
    var vlen := TakeUint(b, Wrap32(22 + offset + klen.value + roffset), 2);
    if key.None? || vlen.None? || Wrap32(24 + offset + klen.value + roffset) > |b| {
      return None, 0;
    }
    if vlen.value == 0 {
      roffset := Wrap32(roffset + klen.value + 4);
      return Some((key.value, [])), roffset;
    }
    var value := TakeText(b, Wrap32(24 + offset + klen.value + roffset), vlen.value);
    if value.None? {
      return None, 0;
    }
    roffset := Wrap32(roffset + klen.value + vlen.value + 4);
    r := Some((key.value, value.value));
  }

  /** One round of the resource loop. */
  method ReadListedResource(
    b: ByteString, offset: nat, ro: nat, ghost p: Pe, ghost keys: seq<ByteString>, ghost n: nat, ghost rest: ByteString)
    returns (r: Option<(ByteString, ByteString)>, roffset: nat)
    ensures && ItemsAhead(b, 20 + offset + ro, keys, n, ResourceBytes(p), rest)
            && n < |keys| && FitsResource(p, keys[n]) && rest != []
            ==> && r == Some((keys[n], p.resources[keys[n]]))
                && ItemsAhead(b, 20 + offset + roffset, keys, n + 1, ResourceBytes(p), rest)
  {
    hide Concat, ResourceBytes, Ahead, FitsText;
    ghost var key, tail := [], rest;
    if ItemsAhead(b, 20 + offset + ro, keys, n, ResourceBytes(p), rest) && n < |keys| {
      ListNext(b, 20 + offset + ro, keys, n, ResourceBytes(p), rest);
      key, tail := keys[n], Concat(keys[n + 1..], ResourceBytes(p)) + rest;
    }
    r, roffset := ReadResource(b, offset, ro, p, key, tail);
  }

  predicate ResourcesAhead(b: ByteString, at: nat, p: Pe, keys: seq<ByteString>, rest: ByteString) {
    && ListAhead(b, at, keys, ResourceBytes(p), rest)
    && (forall i :: 0 <= i < |keys| ==> FitsResource(p, keys[i])) && rest != []
  }

  method ReadResources(b: ByteString, offset: nat, ghost p: Pe, ghost keys: seq<ByteString>, ghost rest: ByteString)
    returns (r: Option<map<ByteString, ByteString>>, roffset: nat)
    ensures ResourcesAhead(b, 18 + offset, p, keys, rest)
            ==> r == Some(Stored(p, keys)) && Ahead(b, 20 + offset + roffset, rest)
  {
    hide ListAhead, ItemsAhead, ResourceBytes, Ahead, TakeUint, FitsText;
    ghost var good := ResourcesAhead(b, 18 + offset, p, keys, rest);
    if good {
      ListBegins(b, 18 + offset, keys, ResourceBytes(p), rest);
    }
    roffset := 0;
    var nresources := TakeUint(b, Wrap32(18 + offset), 2);
    if nresources.None? {
      return None, 0;
    }
    var resources: map<ByteString, ByteString> := map[];
    for n := 0 to nresources.value
      invariant good ==> nresources.value == |keys| && resources == Stored(p, keys[..n])
      invariant good ==> ItemsAhead(b, 20 + offset + roffset, keys, n, ResourceBytes(p), rest)
    {
      hide Stored;
      if good {
        StoredNext(p, keys, n);
      }
      var pair;
      pair, roffset := ReadListedResource(b, offset, roffset, p, keys, n, rest);
      if pair.None? {
        return None, 0;
      }
      if pair.value.0 != [] && pair.value.1 != [] {
        resources := resources[pair.value.0 := pair.value.1];
      }
    }
    r := Some(resources);
    if good {
      assert keys[..|keys|] == keys;
      ListEnds(b, 20 + offset + roffset, keys, ResourceBytes(p), rest);
    }
  }

  /** One round of the anomaly loop. */
  method ReadAnomaly(b: ByteString, offset: nat, o: nat, ghost xs: seq<ByteString>, ghost n: nat)
    returns (r: Option<ByteString>, off: nat)
    ensures ItemsAhead(b, 34 + offset + o, xs, n, Text, []) && n < |xs| && FitsText(xs[n])
            ==> && r == (if xs[n] == [] && n == |xs| - 1 then None else Some(xs[n]))
                && (r.Some? ==> ItemsAhead(b, 34 + offset + off, xs, n + 1, Text, []))
  {
    hide Concat, Text, Ahead, TakeUint, Wrap32;
    WrapSmall();
    ghost var x, tail := [], [];
    if ItemsAhead(b, 34 + offset + o, xs, n, Text, []) && n < |xs| {
      ListNext(b, 34 + offset + o, xs, n, Text, []);
      LastIsLast(xs, n);
      x, tail := xs[n], Concat(xs[n + 1..], Text) + [];
    }
    r := ReadText(b, 34 + offset + o, x, tail);
    if r.None? {
      return None, 0;
    }
    off := Wrap32(o + 2 + |r.value|);
  }

  predicate AnomaliesAhead(b: ByteString, at: nat, xs: seq<ByteString>) {
    ListAhead(b, at, xs, Text, []) && (forall i :: 0 <= i < |xs| ==> FitsText(xs[i]))
  }

  /** The anomalies end the buffer, so an empty last one has no byte to point at. */
  predicate Unreadable(xs: seq<ByteString>) {
    xs != [] && xs[|xs| - 1] == []
  }

  method ReadAnomalies(b: ByteString, offset: nat, ghost xs: seq<ByteString>) returns (r: Option<seq<ByteString>>)
    ensures AnomaliesAhead(b, 32 + offset, xs) ==> r == if Unreadable(xs) then None else Some(xs)
  {
    hide ListAhead, ItemsAhead, FitsText, Ahead, TakeUint, Text;
    ghost var good := AnomaliesAhead(b, 32 + offset, xs);
    if good {
      ListBegins(b, 32 + offset, xs, Text, []);
    }
    var nanomalies := TakeUint(b, Wrap32(32 + offset), 2);
    if nanomalies.None? {
      return None;
    }
    var anomalies: seq<ByteString>, off: nat := [], 0;
    for n := 0 to nanomalies.value
      invariant good ==> nanomalies.value == |xs| && anomalies == xs[..n]
      invariant good ==> ItemsAhead(b, 34 + offset + off, xs, n, Text, [])
      invariant good && n == |xs| ==> !Unreadable(xs)
    {
      var text;
      text, off := ReadAnomaly(b, offset, off, xs, n);
      if text.None? {
        return None;
      }
      anomalies := anomalies + [text.value];
    }
    r := Some(anomalies);
    if good {
      assert xs[..|xs|] == xs;
    }
  }

  /** Nothing follows an element exactly when it is the last one. */
  lemma LastIsLast(xs: seq<ByteString>, n: nat)
    requires n < |xs|
    ensures Concat(xs[n + 1..], Text) + [] == [] <==> n == |xs| - 1
  {
  }

  // ---- the whole record ----

  predicate FitsCert(c: Cert) {
    FitsText(c.notBefore) && FitsText(c.notAfter) && FitsText(c.serial) && FitsText(c.subject) && FitsText(c.issuer)
  }

  predicate FitsHeader(p: Pe) {
    && p.numberOfSections < LIMIT16 && p.numberOfSymbols < LIMIT32
    && FitsText(p.imageBase) && FitsText(p.entryPoint) && FitsText(p.linkTime)
  }

  predicate FitsLists(p: Pe, keys: seq<ByteString>) {
    && |p.sections| < LIMIT16 && (forall i :: 0 <= i < |p.sections| ==> FitsSection(p.sections[i]))
    && |p.symbols| < LIMIT16 && (forall i :: 0 <= i < |p.symbols| ==> FitsShortText(p.symbols[i]))
    && |p.imports| < LIMIT16 && (forall i :: 0 <= i < |p.imports| ==> FitsShortText(p.imports[i]))
    && |keys| < LIMIT16 && (forall i :: 0 <= i < |keys| ==> FitsResource(p, keys[i]))
  }

  predicate FitsTrailer(p: Pe) {
    && (p.cert.Some? ==> FitsCert(p.cert.value)) && FitsText(p.imphash)
    && |p.anomalies| < LIMIT16 && (forall i :: 0 <= i < |p.anomalies| ==> FitsText(p.anomalies[i]))
  }

  /** Every length and count fits its field, and `keys` is an iteration order of the resource map. */
  ghost predicate Fits(p: Pe, keys: seq<ByteString>) {
    && FitsHeader(p) && FitsLists(p, keys) && FitsTrailer(p)
    && (forall key :: key in p.resources <==> key in keys)
  }

  datatype Header = Header(
    sections: nat, symbols: nat, imageBase: ByteString, entryPoint: ByteString, linkTime: ByteString)

  lemma HeaderAt(p: Pe, keys: seq<ByteString>)
    requires FitsHeader(p)
    ensures var b := Layout(p, keys);
            && TakeUint(b, 0, 2) == Some(p.numberOfSections) && TakeUint(b, 2, 4) == Some(p.numberOfSymbols)
            && |b| >= 6 && Ahead(b, 6, FromTexts(p, keys))
  {
    hide U16, U32, Ahead, FromTexts;
    var b := Layout(p, keys);
    Start(b);
    U16At(b, 0, p.numberOfSections, U32(p.numberOfSymbols) + FromTexts(p, keys));
    U32At(b, 2, p.numberOfSymbols, FromTexts(p, keys));
  }

  lemma NonEmpty(p: Pe, keys: seq<ByteString>)
    ensures |FromSections(p, keys)| > 0 && |FromSymbols(p, keys)| > 0
    ensures |FromImports(p, keys)| > 0 && |FromResources(p, keys)| > 0
    ensures |FromSigned(p)| > 0 && |FromBits(p)| > 0 && |FromAnomalies(p)| > 0
  {
    hide Concat, CertBytes;
  }

  method ReadHeader(b: ByteString, ghost p: Pe, ghost keys: seq<ByteString>) returns (r: Option<Header>, offset: nat)
    ensures |b| < LIMIT32 && FitsHeader(p) && b == Layout(p, keys)
            ==> && r == Some(Header(p.numberOfSections, p.numberOfSymbols, p.imageBase, p.entryPoint, p.linkTime))
                && Ahead(b, 12 + offset, FromSections(p, keys))
  {
    hide Layout, Ahead, TakeUint, Text, FromSections, Wrap32, FitsText;
    WrapSmall();
    if FitsHeader(p) && b == Layout(p, keys) {
      HeaderAt(p, keys);
      NonEmpty(p, keys);
    }
    offset := 0;
    var sections, symbols := TakeUint(b, 0, 2), TakeUint(b, 2, 4);
    if sections.None? || symbols.None? {
      return None, 0;
    }
    var base := ReadText(b, 6, p.imageBase, Text(p.entryPoint) + (Text(p.linkTime) + FromSections(p, keys)));
    if base.None? {
      return None, 0;
    }
    offset := Wrap32(|base.value|);
    var entry := ReadText(b, 8 + offset, p.entryPoint, Text(p.linkTime) + FromSections(p, keys));
    if entry.None? {
      return None, 0;
    }
    offset := Wrap32(offset + |entry.value|);
    var time, length := ReadTime(b, 10 + offset, p.linkTime, FromSections(p, keys));
    if time.None? {
      return None, 0;
    }
    offset := Wrap32(offset + length);
    r := Some(Header(sections.value, symbols.value, base.value, entry.value, time.value));
  }

  datatype Lists = Lists(
    sections: seq<Section>, symbols: seq<ByteString>, imports: seq<ByteString>, resources: map<ByteString, ByteString>)

  /** Each list lies where the one before it ends. */
  lemma ListsAhead(b: ByteString, at: nat, p: Pe, keys: seq<ByteString>)
    requires |b| < LIMIT32 && FitsLists(p, keys)
    ensures Ahead(b, at, FromSections(p, keys)) ==> SectionsAhead(b, at, p.sections, FromSymbols(p, keys))
    ensures Ahead(b, at, FromSymbols(p, keys)) ==> TextsAhead(b, at, p.symbols, FromImports(p, keys))
    ensures Ahead(b, at, FromImports(p, keys)) ==> TextsAhead(b, at, p.imports, FromResources(p, keys))
    ensures LastShort(p.symbols) && LastShort(p.imports)
    ensures Ahead(b, at, FromResources(p, keys)) ==> ResourcesAhead(b, at, p, keys, FromSigned(p))
  {
    hide Ahead, U16, Concat, Text, ResourceBytes, SectionBytes, FromSigned, FitsSection, FitsShortText, FitsText,
      FitsResource;
    NonEmpty(p, keys);
    if p.symbols != [] {
      ShortFits(p.symbols[|p.symbols| - 1]);
    }
    if p.imports != [] {
      ShortFits(p.imports[|p.imports| - 1]);
    }
  }

  lemma AheadFits(b: ByteString, at: nat, rest: ByteString)
    requires Ahead(b, at, rest)
    ensures at <= |b|
  {
  }

  method ReadLists(b: ByteString, o: nat, ghost p: Pe, ghost keys: seq<ByteString>)
    returns (r: Option<Lists>, offset: nat)
    ensures |b| < LIMIT32 && FitsLists(p, keys) && Ahead(b, 12 + o, FromSections(p, keys))
            ==> && r == Some(Lists(p.sections, p.symbols, p.imports, Stored(p, keys)))
                && Ahead(b, 20 + offset, FromSigned(p))
  {
    hide Ahead, SectionsAhead, TextsAhead, LastShort, ResourcesAhead, Stored, FitsLists, Wrap32,
      FromSections, FromSymbols, FromImports, FromResources, FromSigned;
    WrapSmall();
    ghost var good := |b| < LIMIT32 && FitsLists(p, keys) && Ahead(b, 12 + o, FromSections(p, keys));
    if good {
      ListsAhead(b, 12 + o, p, keys);
    }
    offset := o;
    var sections, soffset := ReadSections(b, offset, p.sections, FromSymbols(p, keys));
    if sections.None? {
      return None, 0;
    }
    if good {
      AheadFits(b, 14 + offset + soffset, FromSymbols(p, keys));
      ListsAhead(b, 14 + offset + soffset, p, keys);
    }
    offset := Wrap32(offset + soffset);
    var symbols, syoffset := ReadTexts(b, 14, offset, p.symbols, FromImports(p, keys));
    if symbols.None? {
      return None, 0;
    }
    if good {
      AheadFits(b, 16 + offset + syoffset, FromImports(p, keys));
      ListsAhead(b, 16 + offset + syoffset, p, keys);
    }
    offset := Wrap32(offset + syoffset);
    var imports, ioffset := ReadTexts(b, 16, offset, p.imports, FromResources(p, keys));
    if imports.None? {
      return None, 0;
    }
    if good {
      AheadFits(b, 18 + offset + ioffset, FromResources(p, keys));
      ListsAhead(b, 18 + offset + ioffset, p, keys);
    }
    offset := Wrap32(offset + ioffset);
    var resources, roffset := ReadResources(b, offset, p, keys, FromSigned(p));
    if resources.None? {
      return None, 0;
    }
    if good {
      AheadFits(b, 20 + offset + roffset, FromSigned(p));
    }
    offset := Wrap32(offset + roffset);
    r := Some(Lists(sections.value, symbols.value, imports.value, resources.value));
  }

  lemma CertOpens(c: Cert, rest: ByteString)
    ensures CertBytes(c) + rest
            == Text(c.notBefore) + (Text(c.notAfter) + (Text(c.serial) + (Text(c.subject) + (Text(c.issuer) + rest))))
    ensures |CertBytes(c)| == 10 + |c.notBefore| + |c.notAfter| + |c.serial| + |c.subject| + |c.issuer|
  {
    hide U16, Text;
    TextSize(c.notBefore);
    TextSize(c.notAfter);
    TextSize(c.serial);
    TextSize(c.subject);
    TextSize(c.issuer);
  }

  /** The certificate starts 26 bytes past the running offset. */
  method ReadCert(b: ByteString, o: nat, ghost c: Cert, ghost rest: ByteString) returns (r: Option<Cert>)
    ensures |b| < LIMIT32 && FitsCert(c) && rest != [] && Ahead(b, 26 + o, CertBytes(c) + rest) ==> r == Some(c)
  {
    hide Ahead, TakeUint, Text, CertBytes, FitsText, Wrap32;
    WrapSmall();
    CertOpens(c, rest);
    ghost var last := Text(c.issuer) + rest;
    var offset := o;
    var notBefore, l :=
      ReadTime(b, 26 + offset, c.notBefore, Text(c.notAfter) + (Text(c.serial) + (Text(c.subject) + last)));
    if notBefore.None? {
      return None;
    }
    offset := Wrap32(offset + l);
    var notAfter;
    notAfter, l := ReadTime(b, 28 + offset, c.notAfter, Text(c.serial) + (Text(c.subject) + last));
    if notAfter.None? {
      return None;
    }
    offset := Wrap32(offset + l);
    var serial := ReadText(b, 30 + offset, c.serial, Text(c.subject) + last);
    if serial.None? {
      return None;
    }
    offset := Wrap32(offset + |serial.value|);
    var subject := ReadText(b, 32 + offset, c.subject, last);
    if subject.None? {
      return None;
    }
    offset := Wrap32(offset + |subject.value|);
    var issuer := ReadText(b, 34 + offset, c.issuer, rest);
    if issuer.None? {
      return None;
    }
    r := Some(Cert(notBefore.value, notAfter.value, serial.value, subject.value, issuer.value));
  }

  datatype Signature = Signature(isSigned: bool, isTrusted: bool, cert: Option<Cert>)

  lemma SignedAt(b: ByteString, at: nat, p: Pe)
    requires |b| < LIMIT32 && Ahead(b, at, FromSigned(p))
    ensures at + 6 <= |b| && (b[at] > 0 <==> p.isSigned) && (b[at + 1] > 0 <==> p.isTrusted)
    ensures TakeUint(b, at + 2, 4) == Some(|CertData(p)|) && Ahead(b, at + 6, CertData(p) + FromBits(p))
    ensures |CertData(p)| <= |b|
  {
    hide U32, Flag, CertBytes, FromBits, TakeUint;
    FlagAt(b, at, p.isSigned, Flag(p.isTrusted) + FromCert(p));
    FlagAt(b, at + 1, p.isTrusted, FromCert(p));
    U32At(b, at + 2, |CertData(p)|, CertData(p) + FromBits(p));
  }

  /** The certificate, when its size is not zero. */
  method ReadCertData(b: ByteString, offset: nat, certSize: nat, ghost p: Pe, ghost rest: ByteString)
    returns (r: Outcome<Option<Cert>>)
    ensures && |b| < LIMIT32 && FitsTrailer(p) && rest != [] && Ahead(b, 26 + offset, CertData(p) + rest)
            && certSize == |CertData(p)|
            ==> r == Parsed(p.cert) && 26 + offset + certSize <= |b| && Ahead(b, 26 + offset + certSize, rest)
  {
    hide Ahead, CertBytes, FitsText;
    ghost var c := if p.cert.Some? then p.cert.value else Cert([], [], [], [], []);
    CertOpens(c, []);
    if Ahead(b, 26 + offset, CertData(p) + rest) {
      Advance(b, 26 + offset, CertData(p), rest);
    }
    if certSize == 0 {
      return Parsed(None);
    }
    if certSize > |b| {
      return Failed;
    }
    var cert := ReadCert(b, offset, c, rest);
    r := if cert.None? then Panicked else Parsed(cert);
  }

  method ReadSigned(b: ByteString, o: nat, ghost p: Pe) returns (r: Outcome<Signature>, offset: nat)
    ensures |b| < LIMIT32 && FitsTrailer(p) && Ahead(b, 20 + o, FromSigned(p))
            ==> && r == Parsed(Signature(p.isSigned, p.isTrusted, p.cert))
                && Ahead(b, 26 + offset, FromBits(p))
  {
    hide TakeUint, CertData, FromBits, FitsTrailer, FromSigned, Ahead, Wrap32;
    WrapSmall();
    if |b| < LIMIT32 && Ahead(b, 20 + o, FromSigned(p)) {
      NonEmpty(p, []);
      SignedAt(b, 20 + o, p);
    }
    offset := o;
    var certSize := TakeUint(b, Wrap32(22 + offset), 4);
    if Wrap32(20 + offset) >= |b| || Wrap32(21 + offset) >= |b| || certSize.None? {
      return Panicked, 0;
    }
    var cert := ReadCertData(b, offset, certSize.value, p, FromBits(p));
    if !cert.Parsed? {
      return if cert.Failed? then Failed else Panicked, 0;
    }
    r := Parsed(Signature(b[Wrap32(20 + offset)] > 0, b[Wrap32(21 + offset)] > 0, cert.value));
    offset := Wrap32(offset + certSize.value);
  }

  lemma BitsAt(b: ByteString, at: nat, p: Pe)
    requires |b| < LIMIT32 && Ahead(b, at, FromBits(p))
    ensures at + 4 <= |b| && (b[at] > 0 <==> p.isDriver) && (b[at + 1] > 0 <==> p.isDll)
    ensures (b[at + 2] > 0 <==> p.isExecutable) && (b[at + 3] > 0 <==> p.isDotnet)
    ensures Ahead(b, at + 4, FromImphash(p))
  {
    hide Flag, FromImphash, Ahead;
    var rest := FromImphash(p);
    assert FromBits(p) == Flag(p.isDriver) + (Flag(p.isDll) + (Flag(p.isExecutable) + (Flag(p.isDotnet) + rest)));
    FlagAt(b, at, p.isDriver, Flag(p.isDll) + (Flag(p.isExecutable) + (Flag(p.isDotnet) + rest)));
    FlagAt(b, at + 1, p.isDll, Flag(p.isExecutable) + (Flag(p.isDotnet) + rest));
    FlagAt(b, at + 2, p.isExecutable, Flag(p.isDotnet) + rest);
    FlagAt(b, at + 3, p.isDotnet, rest);
  }

  datatype Trailer = Trailer(
    isDriver: bool, isDll: bool, isExecutable: bool, isDotnet: bool, imphash: ByteString, anomalies: seq<ByteString>)

  method ReadTrailer(b: ByteString, o: nat, ghost p: Pe) returns (r: Option<Trailer>)
    ensures |b| < LIMIT32 && FitsTrailer(p) && Ahead(b, 26 + o, FromBits(p))
            ==> r == if Unreadable(p.anomalies) then None
                     else Some(Trailer(p.isDriver, p.isDll, p.isExecutable, p.isDotnet, p.imphash, p.anomalies))
  {
    hide Ahead, FromBits, Text, U16, FitsText, TakeUint, Concat, Wrap32;
    WrapSmall();
    if |b| < LIMIT32 && Ahead(b, 26 + o, FromBits(p)) {
      BitsAt(b, 26 + o, p);
      NonEmpty(p, []);
      Nothing(Concat(p.anomalies, Text));
    }
    var at := Wrap32(26 + o);
    if at + 4 > |b| {
      return None;
    }
    var imphash := ReadText(b, 30 + o, p.imphash, FromAnomalies(p));
    if imphash.None? {
      return None;
    }
    var anomalies := ReadAnomalies(b, Wrap32(o + |imphash.value|), p.anomalies);
    if anomalies.None? {
      return None;
    }
    r := Some(Trailer(b[at] > 0, b[at + 1] > 0, b[at + 2] > 0, b[at + 3] > 0, imphash.value, anomalies.value));
  }

  /** What comes back: captures before the second version of the section end with the resources. */
  function Recovered(p: Pe, ver: nat): (r: Outcome<Pe>) {
    if ver < PE_SEC_V2 then
      Parsed(EMPTY_PE.(numberOfSections := p.numberOfSections, numberOfSymbols := p.numberOfSymbols,
             imageBase := p.imageBase, entryPoint := p.entryPoint, linkTime := p.linkTime,
             sections := p.sections, symbols := p.symbols, imports := p.imports, resources := Kept(p)))
    else if Unreadable(p.anomalies) then Panicked
    else Parsed(p.(resources := Kept(p)))
  }

  /** Reads `b`; when the encoder wrote it from `p`, every field comes back. */
  method NewFromCapture(b: ByteString, ver: nat, ghost p: Pe, ghost keys: seq<ByteString>) returns (r: Outcome<Pe>)
    ensures |b| < 6 ==> r == Failed
    ensures |b| < LIMIT32 && Fits(p, keys) && b == Layout(p, keys) ==> r == Recovered(p, ver)
  {
    hide Ahead, Layout, FromSections, FromSigned, FromBits, Stored, Kept, FitsHeader, FitsLists, FitsTrailer;
    if Fits(p, keys) {
      StoredAll(p, keys);
      HeaderAt(p, keys);
    }
    if |b| < 6 {
      return Failed;
    }
    var header, offset := ReadHeader(b, p, keys);
    if header.None? {
      return Panicked;
    }
    var lists;
    lists, offset := ReadLists(b, offset, p, keys);
    if lists.None? {
      return Panicked;
    }
    var Header(sections, symbols, base, entry, time) := header.value;
    var pe := EMPTY_PE.(numberOfSections := sections, numberOfSymbols := symbols,
      imageBase := base, entryPoint := entry, linkTime := time,
      sections := lists.value.sections, symbols := lists.value.symbols,
      imports := lists.value.imports, resources := lists.value.resources);
    if ver < PE_SEC_V2 {
      return Parsed(pe);
    }
    var signature;
    signature, offset := ReadSigned(b, offset, p);
    if !signature.Parsed? {
      return if signature.Failed? then Failed else Panicked;
    }
    var trailer := ReadTrailer(b, offset, p);
    if trailer.None? {
      return Panicked;
    }
    var Signature(signed, trusted, cert) := signature.value;
    var t := trailer.value;
    r := Parsed(pe.(isSigned := signed, isTrusted := trusted, cert := cert,
      isDriver := t.isDriver, isDll := t.isDll, isExecutable := t.isExecutable, isDotnet := t.isDotnet,
      imphash := t.imphash, anomalies := t.anomalies));
  }

  /** Writing and reading again, in one call. */
  method CaptureRoundTrip(p: Pe, keys: seq<ByteString>) returns (r: Outcome<Pe>)
    ensures |Layout(p, keys)| < LIMIT32 && Fits(p, keys) ==> r == Recovered(p, 2)
  {
    var b := Marshal(p, keys);
    r := NewFromCapture(b, PE_SEC_V2, p, keys);
  }

  /** Captures of the first version have neither signature nor flags, hashes and anomalies; the rest comes back. */
  lemma FirstVersion(p: Pe)
    ensures var r := Recovered(p, 1);
            && r.Parsed? && !r.value.isSigned && !r.value.isTrusted && r.value.cert.None?
            && !r.value.isDriver && !r.value.isDll && !r.value.isExecutable && !r.value.isDotnet
            && r.value.imphash == [] && r.value.anomalies == []
            && (r.value.sections, r.value.symbols, r.value.imports) == (p.sections, p.symbols, p.imports)
            && r.value.numberOfSections == p.numberOfSections && r.value.numberOfSymbols == p.numberOfSymbols
            && (r.value.imageBase, r.value.entryPoint, r.value.linkTime) == (p.imageBase, p.entryPoint, p.linkTime)
            && forall key :: (key in r.value.resources <==> key in p.resources && key != [] && p.resources[key] != [])
                             && (key in r.value.resources ==> r.value.resources[key] == p.resources[key])
  {
  }

  /** Exactly which records survive: a resource with an empty half is lost, an empty last anomaly is fatal. */
  lemma RecoveredExactly(p: Pe)
    ensures Recovered(p, 2) == Parsed(p) <==>
            && (p.anomalies == [] || p.anomalies[|p.anomalies| - 1] != [])
            && (forall key :: key in p.resources ==> key != [] && p.resources[key] != [])
  {
    if forall key :: key in p.resources ==> key != [] && p.resources[key] != [] {
      assert Kept(p) == p.resources;
    }
    if Recovered(p, 2) == Parsed(p) {
      assert p.(resources := Kept(p)).resources == p.resources;
      forall key | key in p.resources
        ensures key != [] && p.resources[key] != []
      {
        assert key in Kept(p);
      }
    }
  }
}
