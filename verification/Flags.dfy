/** Naming the flags of a bitmask: a greedy walk over a table that takes out the bits it has named. */
module Flags {

  type Mask = bv64

  datatype ParamFlag = ParamFlag(name: string, value: Mask)

  // ---- bits ----

  function Both(v: Mask, w: Mask): Mask { v & w }

  function Either(v: Mask, w: Mask): Mask { v | w }

  function Minus(v: Mask, w: Mask): Mask { v & !w }

  /** Every bit of `v` is set in `f`. */
  predicate Fits(v: Mask, f: Mask) { Both(v, f) == v }

  /** `v` and `w` have no bit in common. */
  predicate Apart(v: Mask, w: Mask) { Both(v, w) == 0 }

  lemma FitsTransitive(v: Mask, r: Mask, f: Mask)
    requires Fits(v, r) && Fits(r, f)
    ensures Fits(v, f)
  {
    AndSwap(v, r);
    AndSwap(r, f);
  }

  lemma AndSwap(v: Mask, r: Mask)
    ensures v & r == r & v
  {
  }

  lemma MinusFits(f: Mask, v: Mask)
    ensures Fits(f, f) && Fits(Minus(f, v), f)
  {
  }

  lemma MinusApart(v: Mask, u: Mask, f: Mask)
    requires Fits(u, Minus(f, v))
    ensures Apart(v, u)
  {
  }

  lemma MinusSplits(v: Mask, u: Mask, r: Mask, f: Mask)
    requires Fits(v, f) && Either(u, r) == Minus(f, v)
    ensures Either(Either(v, u), r) == f
  {
  }

  lemma EitherApart(v: Mask, u: Mask, r: Mask)
    requires Apart(v, r) && Apart(u, r)
    ensures Apart(Either(v, u), r)
  {
  }

  lemma ZeroMask(r: Mask, v: Mask)
    ensures Fits(0, r) && Apart(0, r) && Either(0, r) == r && Minus(r, 0) == r
    ensures v != 0 ==> !Fits(v, 0) && !Fits(v, Minus(r, v))
  {
  }

  // ---- the walk ----

  predicate Eval(flag: ParamFlag, v: Mask) {
    (v == 0 && flag.value == 0) || (flag.value != 0 && Both(v, flag.value) == flag.value && v != 0)
  }

  /** A flag is named when its bits are in the mask; the zero flag only when the mask is zero. */
  lemma EvalMeaning(flag: ParamFlag, v: Mask)
    ensures Eval(flag, v) <==> Fits(flag.value, v) && (flag.value == 0 <==> v == 0)
  {
    AndSwap(flag.value, v);
    ZeroMask(v, flag.value);
  }

  /** The mask after the walk met `flag`. */
  function Without(flag: ParamFlag, f: Mask): Mask {
    if Eval(flag, f) then Minus(f, flag.value) else f
  }

  /** What is left of the mask after the whole table. */
  function Residue(flags: seq<ParamFlag>, f: Mask): Mask {
    if flags == [] then f else Residue(flags[1..], Without(flags[0], f))
  }

  /** The flags that are named, in table order. */
  function Named(flags: seq<ParamFlag>, f: Mask): seq<ParamFlag> {
    if flags == [] then []
    else (if Eval(flags[0], f) then [flags[0]] else []) + Named(flags[1..], Without(flags[0], f))
  }

  function Union(flags: seq<ParamFlag>): Mask {
    if flags == [] then 0 else Either(flags[0].value, Union(flags[1..]))
  }

  function Join(flags: seq<ParamFlag>): string {
    if flags == [] then ""
    else if |flags| == 1 then flags[0].name
    else Join(flags[..|flags| - 1]) + "|" + flags[|flags| - 1].name
  }

  lemma JoinSnoc(flags: seq<ParamFlag>, flag: ParamFlag)
    ensures Join(flags + [flag]) == Join(flags) + (if flags == [] then "" else "|") + flag.name
  {
    assert (flags + [flag])[..|flags|] == flags;
  }

  /** Names are separated by a bar. */
  lemma {:induction false} JoinSplits(xs: seq<ParamFlag>, ys: seq<ParamFlag>)
    requires xs != [] && ys != []
    ensures Join(xs + ys) == Join(xs) + "|" + Join(ys) && (|xs| == 1 ==> Join(xs) == xs[0].name)
  {
    var n := |ys| - 1;
    JoinOne(xs);
    hide Join;
    assert ys == ys[..n] + [ys[n]] && xs + ys == (xs + ys[..n]) + [ys[n]];
    JoinSnoc(xs + ys[..n], ys[n]);
    JoinSnoc(ys[..n], ys[n]);
    if n > 0 {
      JoinSplits(xs, ys[..n]);
    } else {
      JoinOne([ys[n]]);
      assert xs + ys[..n] == xs && ys[..n] == [] && ys == [ys[n]];
    }
  }

  lemma JoinOne(xs: seq<ParamFlag>)
    ensures |xs| == 1 ==> Join(xs) == xs[0].name
  {
  }

  lemma NamedHead(flags: seq<ParamFlag>, f: Mask, i: nat, named: seq<ParamFlag>)
    requires i < |flags|
    ensures named + Named(flags[i..], f)
            == (if Eval(flags[i], f) then named + [flags[i]] else named) + Named(flags[i + 1..], Without(flags[i], f))
  {
    hide Eval, Without;
    assert flags[i..][0] == flags[i] && flags[i..][1..] == flags[i + 1..];
  }

  method FlagsString(flags: seq<ParamFlag>, mask: Mask) returns (n: string)
    ensures n == Join(Named(flags, mask))
  {
    hide Eval, Minus, Join, Named;
    var f, s := mask, "";
    n := "";
    ghost var named: seq<ParamFlag> := [];
    JoinNothing(flags, mask);
    for i := 0 to |flags|
      invariant n == Join(named) && s == (if named == [] then "" else "|")
      invariant named + Named(flags[i..], f) == Named(flags, mask)
    {
      var flag := flags[i];
      NamedHead(flags, f, i, named);
      if Eval(flag, f) {
        JoinSnoc(named, flag);
        n := n + s + flag.name;
        s := "|";
        named := named + [flag];
        f := Minus(f, flag.value);
      }
    }
    NamedNothing(flags[|flags|..], f);
    assert named + [] == named;
  }

  lemma JoinNothing(flags: seq<ParamFlag>, f: Mask)
    ensures Join([]) == "" && flags[0..] == flags && [] + Named(flags, f) == Named(flags, f)
  {
  }

  lemma NamedNothing(flags: seq<ParamFlag>, f: Mask)
    requires flags == []
    ensures Named(flags, f) == []
  {
  }

  // ---- what the walk finds ----

  lemma WithoutFits(flag: ParamFlag, f: Mask)
    ensures Fits(Without(flag, f), f)
  {
    MinusFits(f, flag.value);
  }

  lemma {:induction false} ResidueFits(flags: seq<ParamFlag>, f: Mask)
    ensures Fits(Residue(flags, f), f)
  {
    hide Fits, Without;
    if flags == [] {
      MinusFits(f, 0);
    } else {
      var g := Without(flags[0], f);
      ResidueFits(flags[1..], g);
      WithoutFits(flags[0], f);
      FitsTransitive(Residue(flags[1..], g), g, f);
    }
  }

  lemma {:induction false} NamedFits(flags: seq<ParamFlag>, f: Mask, i: nat)
    requires i < |Named(flags, f)|
    ensures Fits(Named(flags, f)[i].value, f)
  {
    hide Fits, Without, Eval;
    var g := Without(flags[0], f);
    EvalMeaning(flags[0], f);
    WithoutFits(flags[0], f);
    var j := if Eval(flags[0], f) then i - 1 else i;
    if j >= 0 {
      assert Named(flags, f)[i] == Named(flags[1..], g)[j];
      NamedFits(flags[1..], g, j);
      FitsTransitive(Named(flags[1..], g)[j].value, g, f);
    }
  }

  lemma EvalWithout(flag: ParamFlag, f: Mask)
    requires Eval(flag, f)
    ensures Fits(flag.value, f) && Without(flag, f) == Minus(f, flag.value)
  {
    EvalMeaning(flag, f);
  }

  lemma UnionHead(flags: seq<ParamFlag>, f: Mask)
    requires flags != []
    ensures var rest := Named(flags[1..], Without(flags[0], f));
            Union(Named(flags, f)) == if Eval(flags[0], f) then Either(flags[0].value, Union(rest)) else Union(rest)
  {
    hide Eval, Without, Either;
    var rest := Named(flags[1..], Without(flags[0], f));
    if Eval(flags[0], f) {
      assert ([flags[0]] + rest)[1..] == rest;
    } else {
      assert [] + rest == rest;
    }
  }

  /** The mask is made of the named values and the residue, which have no bit in common. */
  lemma {:induction false} MaskDecomposes(flags: seq<ParamFlag>, f: Mask)
    ensures Either(Union(Named(flags, f)), Residue(flags, f)) == f
    ensures Apart(Union(Named(flags, f)), Residue(flags, f))
  {
    hide Eval, Without, Either, Fits, Apart, Minus;
    if flags == [] {
      ZeroMask(f, 0);
    } else {
      var v, g := flags[0].value, Without(flags[0], f);
      var rest, r := Union(Named(flags[1..], g)), Residue(flags[1..], g);
      MaskDecomposes(flags[1..], g);
      UnionHead(flags, f);
      if Eval(flags[0], f) {
        EvalWithout(flags[0], f);
        ResidueFits(flags[1..], g);
        MinusApart(v, r, f);
        EitherApart(v, rest, r);
        MinusSplits(v, rest, r, f);
      } else {
        WithoutNothing(flags[0], f);
      }
    }
  }

  lemma WithoutNothing(flag: ParamFlag, f: Mask)
    requires !Eval(flag, f)
    ensures Without(flag, f) == f
  {
  }

  /** No two named flags share a bit. */
  lemma {:induction false} NamedApart(flags: seq<ParamFlag>, f: Mask, i: nat, j: nat)
    requires i < j < |Named(flags, f)|
    ensures Apart(Named(flags, f)[i].value, Named(flags, f)[j].value)
  {
    hide Eval, Without, Apart, Fits, Minus;
    var g := Without(flags[0], f);
    var rest := Named(flags[1..], g);
    if !Eval(flags[0], f) {
      assert Named(flags, f) == rest;
      NamedApart(flags[1..], g, i, j);
    } else {
      assert Named(flags, f) == [flags[0]] + rest;
      if i == 0 {
        EvalWithout(flags[0], f);
        NamedFits(flags[1..], g, j - 1);
        MinusApart(flags[0].value, rest[j - 1].value, f);
      } else {
        NamedApart(flags[1..], g, i - 1, j - 1);
      }
    }
  }

  lemma WithoutMisses(flag: ParamFlag, f: Mask)
    requires flag.value != 0
    ensures !Fits(flag.value, Without(flag, f))
  {
    hide Fits;
    EvalMeaning(flag, f);
    ZeroMask(f, flag.value);
  }

  /** No entry of the table with a bit set fits inside the residue: nothing that could be named was missed. */
  lemma {:induction false} ResidueFitsNone(flags: seq<ParamFlag>, f: Mask, k: nat)
    requires k < |flags| && flags[k].value != 0
    ensures !Fits(flags[k].value, Residue(flags, f))
  {
    hide Without, Fits;
    var g := Without(flags[0], f);
    if k > 0 {
      ResidueFitsNone(flags[1..], g, k - 1);
    } else {
      WithoutMisses(flags[0], f);
      ResidueFits(flags[1..], g);
      if Fits(flags[0].value, Residue(flags[1..], g)) {
        FitsTransitive(flags[0].value, Residue(flags[1..], g), g);
      }
    }
  }

  lemma FirstStep(flags: seq<ParamFlag>, f: Mask, k: nat) returns (head: seq<ParamFlag>)
    requires 0 < k <= |flags|
    ensures var g := Without(flags[0], f);
            && Named(flags, f) == head + Named(flags[1..], g)
            && Named(flags[..k], f) == head + Named(flags[1..][..k - 1], g)
            && Residue(flags[..k], f) == Residue(flags[1..][..k - 1], g)
  {
    hide Eval, Without;
    head := if Eval(flags[0], f) then [flags[0]] else [];
    assert flags[..k][0] == flags[0] && flags[..k][1..] == flags[1..][..k - 1];
  }

  /** An entry with value zero is named exactly when the entries before it have used up the mask. */
  lemma {:induction false} ZeroEntryNamed(flags: seq<ParamFlag>, f: Mask, k: nat)
    requires k < |flags| && flags[k].value == 0
    ensures Named(flags, f) == Named(flags[..k], f)
                               + (if Residue(flags[..k], f) == 0 then [flags[k]] else [])
                               + Named(flags[k + 1..], Residue(flags[..k], f))
  {
    if k > 0 {
      hide Eval, Without, Named, Residue;
      var g := Without(flags[0], f);
      var head := FirstStep(flags, f, k);
      ZeroEntryNamed(flags[1..], g, k - 1);
      assert flags[1..][k - 1] == flags[k] && flags[1..][k..] == flags[k + 1..];
    } else {
      hide Eval, Without;
      ZeroStep(flags[0], f);
      assert flags[..0] == [];
    }
  }

  lemma ZeroStep(flag: ParamFlag, f: Mask)
    requires flag.value == 0
    ensures Without(flag, f) == f && (Eval(flag, f) <==> f == 0)
  {
    ZeroMask(f, 0);
  }
}
