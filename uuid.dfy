/** Version-4 identifiers (RFC 4122 section 4.4) as `uuidv4` makes them: every
    'x' of a fixed template becomes one random hex digit and the 'y' becomes a
    random digit with its two high bits forced to 10.

    `Math.random` is a parameter: `rand(n)` is the nibble `Math.random() * 16 | 0`
    of the n-th draw, so one call consumes 31 consecutive draws. */
module Uuid {

  type Nibble = x: int | 0 <= x < 16

  const Template: string := "xxxxxxxx-xxxx-4xxx-yxxx-xxxxxxxxxxxx"

  /** `v.toString(16)` for one nibble (lower-case). */
  function HexDigit(v: Nibble): char {
    if v < 10 then ('0' as int + v) as char else ('a' as int + v - 10) as char
  }

  predicate IsLowerHex(c: char) {
    '0' <= c <= '9' || 'a' <= c <= 'f'
  }

  function HexValue(c: char): int {
    if '0' <= c <= '9' then c as int - '0' as int
    else if 'a' <= c <= 'f' then c as int - 'a' as int + 10
    else -1
  }

  lemma HexDigitValue(v: Nibble)
    ensures IsLowerHex(HexDigit(v)) && HexValue(HexDigit(v)) == v
  {
  }

  /** `r & 0x3 | 0x8`: the variant digit. */
  function Variant(r: Nibble): Nibble {
    ((r as bv8 & 0x3) | 0x8) as int
  }

  lemma VariantRange(r: Nibble)
    ensures 8 <= Variant(r) <= 11 && Variant(r) == 8 + r % 4
  {
  }

  /** The callback of the template replacement for the draw `n`. */
  function Replacement(c: char, rand: nat -> Nibble, n: nat): char {
    HexDigit(if c == 'x' then rand(n) else Variant(rand(n)))
  }

  predicate IsPlaceholder(c: char) {
    c == 'x' || c == 'y'
  }

  /** `t.replace(/[xy]/g, callback)`: the placeholders are filled left to right,
      each with the next draw, starting with draw `n`. */
  function Fill(t: string, rand: nat -> Nibble, n: nat): string
    decreases |t|
  {
    if t == [] then []
    else if IsPlaceholder(t[0]) then [Replacement(t[0], rand, n)] + Fill(t[1..], rand, n + 1)
    else [t[0]] + Fill(t[1..], rand, n)
  }

  /** The number of draws a template consumes. */
  function Placeholders(t: string): nat {
    if t == [] then 0 else (if IsPlaceholder(t[0]) then 1 else 0) + Placeholders(t[1..])
  }

  /** The identifier made from the draws `n .. n + 30`, written group by
      group; `UuidGroups` proves it is what the template replacement yields. */
  function Uuidv4(rand: nat -> Nibble, n: nat): string {
    Groups(rand, n)
  }

  lemma {:induction false} FillConcat(a: string, b: string, rand: nat -> Nibble, n: nat)
    ensures Fill(a + b, rand, n) == Fill(a, rand, n) + Fill(b, rand, n + Placeholders(a))
    ensures Placeholders(a + b) == Placeholders(a) + Placeholders(b)
    decreases |a|
  {
    if a != [] {
      assert (a + b)[1..] == a[1..] + b;
      FillConcat(a[1..], b, rand, n + (if IsPlaceholder(a[0]) then 1 else 0));
    } else {
      assert a + b == b;
    }
  }

  function Xs(k: nat): string {
    seq(k, _ => 'x')
  }

  /** The hex digits of the draws `n .. n + k - 1`. */
  function Hexes(rand: nat -> Nibble, n: nat, k: nat): (r: string)
    ensures |r| == k
  {
    seq(k, i requires 0 <= i < k => HexDigit(rand(n + i)))
  }

  lemma {:induction false} FillXs(k: nat, rand: nat -> Nibble, n: nat)
    ensures Fill(Xs(k), rand, n) == Hexes(rand, n, k)
    ensures Placeholders(Xs(k)) == k
    decreases k
  {
    if k > 0 {
      assert Xs(k)[1..] == Xs(k - 1);
      FillXs(k - 1, rand, n + 1);
      assert Hexes(rand, n, k) == [HexDigit(rand(n))] + Hexes(rand, n + 1, k - 1);
    }
  }

  lemma FillFixed(c: char, rand: nat -> Nibble, n: nat)
    requires !IsPlaceholder(c)
    ensures Fill([c], rand, n) == [c] && Placeholders([c]) == 0
  {
    assert [c][1..] == [];
  }

  lemma FillY(rand: nat -> Nibble, n: nat)
    ensures Fill("y", rand, n) == [HexDigit(Variant(rand(n)))] && Placeholders("y") == 1
  {
    assert "y"[1..] == [];
  }

  /** The template split into its groups. */
  lemma TemplateGroups()
    ensures Template == Xs(8) + "-" + Xs(4) + "-" + "4" + Xs(3) + "-" + "y" + Xs(3) + "-" + Xs(12)
  {
  }

  /** The identifier in three parts: the first two groups, the version and
      variant groups, and the last two groups. */
  function PartA(rand: nat -> Nibble, n: nat): string {
    Hexes(rand, n, 8) + "-" + Hexes(rand, n + 8, 4) + "-"
  }

  function PartB(rand: nat -> Nibble, n: nat): string {
    "4" + Hexes(rand, n + 12, 3) + "-" + [HexDigit(Variant(rand(n + 15)))]
  }

  function PartC(rand: nat -> Nibble, n: nat): string {
    Hexes(rand, n + 16, 3) + "-" + Hexes(rand, n + 19, 12)
  }

  function Groups(rand: nat -> Nibble, n: nat): string {
    PartA(rand, n) + PartB(rand, n) + PartC(rand, n)
  }

  lemma FillPair(a: string, b: string, rand: nat -> Nibble, n: nat, fa: string, fb: string, pa: nat, pb: nat)
    requires Fill(a, rand, n) == fa && Placeholders(a) == pa
    requires Fill(b, rand, n + pa) == fb && Placeholders(b) == pb
    ensures Fill(a + b, rand, n) == fa + fb && Placeholders(a + b) == pa + pb
  {
    FillConcat(a, b, rand, n);
  }

  /** Two groups of placeholders around a dash. */
  lemma FillTwoGroups(k1: nat, k2: nat, rand: nat -> Nibble, n: nat)
    ensures Fill(Xs(k1) + "-" + Xs(k2), rand, n) == Hexes(rand, n, k1) + "-" + Hexes(rand, n + k1, k2)
    ensures Placeholders(Xs(k1) + "-" + Xs(k2)) == k1 + k2
  {
    FillXs(k1, rand, n);
    FillFixed('-', rand, n + k1);
    FillPair(Xs(k1), "-", rand, n, Hexes(rand, n, k1), "-", k1, 0);
    FillXs(k2, rand, n + k1);
    FillPair(Xs(k1) + "-", Xs(k2), rand, n, Hexes(rand, n, k1) + "-", Hexes(rand, n + k1, k2), k1, k2);
  }

  lemma FillFirstGroups(rand: nat -> Nibble, n: nat)
    ensures Fill(Xs(8) + "-" + Xs(4) + "-", rand, n) == Hexes(rand, n, 8) + "-" + Hexes(rand, n + 8, 4) + "-"
    ensures Placeholders(Xs(8) + "-" + Xs(4) + "-") == 12
  {
    FillTwoGroups(8, 4, rand, n);
    FillFixed('-', rand, n + 12);
    FillPair(Xs(8) + "-" + Xs(4), "-", rand, n, Hexes(rand, n, 8) + "-" + Hexes(rand, n + 8, 4), "-", 12, 0);
  }

  lemma FillVersionGroup(rand: nat -> Nibble, n: nat)
    ensures Fill("4" + Xs(3), rand, n + 12) == "4" + Hexes(rand, n + 12, 3)
    ensures Placeholders("4" + Xs(3)) == 3
  {
    FillFixed('4', rand, n + 12);
    FillXs(3, rand, n + 12);
    FillPair("4", Xs(3), rand, n + 12, "4", Hexes(rand, n + 12, 3), 0, 3);
  }

  lemma FillVariantGroup(rand: nat -> Nibble, n: nat)
    ensures Fill("-y", rand, n + 15) == "-" + [HexDigit(Variant(rand(n + 15)))]
    ensures Placeholders("-y") == 1
  {
    FillFixed('-', rand, n + 15);
    FillY(rand, n + 15);
    assert "-y" == "-" + "y";
    FillPair("-", "y", rand, n + 15, "-", [HexDigit(Variant(rand(n + 15)))], 0, 1);
  }

  lemma FillMiddleGroups(rand: nat -> Nibble, n: nat)
    ensures Fill("4" + Xs(3) + "-y", rand, n + 12) == "4" + Hexes(rand, n + 12, 3) + "-" + [HexDigit(Variant(rand(n + 15)))]
    ensures Placeholders("4" + Xs(3) + "-y") == 4
  {
    FillVersionGroup(rand, n);
    FillVariantGroup(rand, n);
    FillPair("4" + Xs(3), "-y", rand, n + 12, "4" + Hexes(rand, n + 12, 3), "-" + [HexDigit(Variant(rand(n + 15)))], 3, 1);
  }

  lemma FillLastGroups(rand: nat -> Nibble, n: nat)
    ensures Fill(Xs(3) + "-" + Xs(12), rand, n + 16) == Hexes(rand, n + 16, 3) + "-" + Hexes(rand, n + 19, 12)
    ensures Placeholders(Xs(3) + "-" + Xs(12)) == 15
  {
    FillTwoGroups(3, 12, rand, n + 16);
  }

  lemma {:induction false} FillGroups(t: string, rand: nat -> Nibble, n: nat)
    requires t == Xs(8) + "-" + Xs(4) + "-" + "4" + Xs(3) + "-" + "y" + Xs(3) + "-" + Xs(12)
    ensures Fill(t, rand, n) == Groups(rand, n)
    ensures Placeholders(t) == 31
  {
    var a := Xs(8) + "-" + Xs(4) + "-";
    var b := "4" + Xs(3) + "-y";
    var c := Xs(3) + "-" + Xs(12);
    assert t == a + b + c;
    var fa := PartA(rand, n);
    var fb := PartB(rand, n);
    var fc := PartC(rand, n);
    FillFirstGroups(rand, n);
    FillMiddleGroups(rand, n);
    FillPair(a, b, rand, n, fa, fb, 12, 4);
    FillLastGroups(rand, n);
    FillPair(a + b, c, rand, n, fa + fb, fc, 16, 15);
    assert Groups(rand, n) == fa + fb + fc;
  }

  /** The identifier written out group by group; one call consumes 31 draws. */
  lemma UuidGroups(rand: nat -> Nibble, n: nat)
    ensures Fill(Template, rand, n) == Uuidv4(rand, n)
    ensures Placeholders(Template) == 31
  {
    TemplateGroups();
    FillGroups(Template, rand, n);
  }

  /** The layout of RFC 4122 section 4.4 in the lower-case form `uuidv4` writes. */
  predicate IsUuidV4(u: string) {
    && |u| == 36
    && u[8] == '-' && u[13] == '-' && u[18] == '-' && u[23] == '-'
    && u[14] == '4'
    && (u[19] == '8' || u[19] == '9' || u[19] == 'a' || u[19] == 'b')
    && forall i :: 0 <= i < 36 && i != 8 && i != 13 && i != 18 && i != 23 ==> IsLowerHex(u[i])
  }

  /** Position in the identifier of the digit made from the j-th draw. */
  function DrawPosition(j: nat): nat
    requires j < 31
  {
    if j < 8 then j else if j < 12 then j + 1 else if j < 15 then j + 3 else if j < 19 then j + 4 else j + 5
  }

  /** The character at position `i`: a dash, the version digit, the variant digit
      or the digit of the draw `DrawPosition` maps there. */
  predicate CharOk(u: string, rand: nat -> Nibble, n: nat, i: nat)
    requires |u| == 36 && i < 36
  {
    if i == 8 || i == 13 || i == 18 || i == 23 then u[i] == '-'
    else if i == 14 then u[i] == '4'
    else if i == 19 then u[i] == HexDigit(Variant(rand(n + 15)))
    else if i < 8 then u[i] == HexDigit(rand(n + i))
    else if i < 13 then u[i] == HexDigit(rand(n + i - 1))
    else if i < 18 then u[i] == HexDigit(rand(n + i - 3))
    else if i < 23 then u[i] == HexDigit(rand(n + i - 4))
    else u[i] == HexDigit(rand(n + i - 5))
  }

  lemma PartAChars(rand: nat -> Nibble, n: nat)
    ensures |PartA(rand, n)| == 14
    ensures forall i :: 0 <= i < 14 ==> CharOk(Groups(rand, n), rand, n, i)
  {
    var g := Groups(rand, n);
    var a := PartA(rand, n);
    assert |g| == 36;
    assert forall i :: 0 <= i < 14 ==> g[i] == a[i];
  }

  lemma PartBChars(rand: nat -> Nibble, n: nat)
    ensures |PartB(rand, n)| == 6
    ensures forall i :: 14 <= i < 20 ==> CharOk(Groups(rand, n), rand, n, i)
  {
    var g := Groups(rand, n);
    var b := PartB(rand, n);
    assert |g| == 36;
    assert forall i :: 14 <= i < 20 ==> g[i] == b[i - 14];
  }

  lemma PartCChars(rand: nat -> Nibble, n: nat)
    ensures |PartC(rand, n)| == 16
    ensures forall i :: 20 <= i < 36 ==> CharOk(Groups(rand, n), rand, n, i)
  {
    var g := Groups(rand, n);
    var c := PartC(rand, n);
    assert |g| == 36;
    assert forall i :: 20 <= i < 36 ==> g[i] == c[i - 20];
  }

  lemma FormatFromChars(u: string, rand: nat -> Nibble, n: nat)
    requires |u| == 36 && forall i :: 0 <= i < 36 ==> CharOk(u, rand, n, i)
    ensures IsUuidV4(u)
    ensures forall j :: 0 <= j < 31 && j != 15 ==> HexValue(u[DrawPosition(j)]) == rand(n + j)
    ensures HexValue(u[19]) == 8 + rand(n + 15) % 4
  {
    assert CharOk(u, rand, n, 8) && CharOk(u, rand, n, 13) && CharOk(u, rand, n, 18);
    assert CharOk(u, rand, n, 23) && CharOk(u, rand, n, 14) && CharOk(u, rand, n, 19);
    VariantRange(rand(n + 15));
    HexDigitValue(Variant(rand(n + 15)));
    forall i | 0 <= i < 36 && i != 8 && i != 13 && i != 18 && i != 23
      ensures IsLowerHex(u[i])
    {
      assert CharOk(u, rand, n, i);
      if i < 8 { HexDigitValue(rand(n + i)); }
      else if 8 < i < 13 { HexDigitValue(rand(n + i - 1)); }
      else if 14 < i < 18 { HexDigitValue(rand(n + i - 3)); }
      else if 19 < i < 23 { HexDigitValue(rand(n + i - 4)); }
      else if 23 < i { HexDigitValue(rand(n + i - 5)); }
    }
    forall j | 0 <= j < 31 && j != 15
      ensures HexValue(u[DrawPosition(j)]) == rand(n + j)
    {
      assert CharOk(u, rand, n, DrawPosition(j));
      HexDigitValue(rand(n + j));
    }
  }

  /** The hex digits of `u` are the nibbles drawn from `n` on (the variant digit
      keeps the two low bits of its draw). */
  predicate ReadsBack(u: string, rand: nat -> Nibble, n: nat) {
    && |u| == 36
    && (forall j :: 0 <= j < 31 && j != 15 ==> HexValue(u[DrawPosition(j)]) == rand(n + j))
    && HexValue(u[19]) == 8 + rand(n + 15) % 4
  }

  /** Every identifier has the version-4 layout, and its digits are the draws:
      reading them back yields exactly the nibbles that were drawn. */
  lemma UuidFormat(rand: nat -> Nibble, n: nat)
    ensures IsUuidV4(Uuidv4(rand, n))
    ensures ReadsBack(Uuidv4(rand, n), rand, n)
  {
    PartAChars(rand, n);
    PartBChars(rand, n);
    PartCChars(rand, n);
    FormatFromChars(Groups(rand, n), rand, n);
  }

  /** `Math.random` as the assembler consumes it: a fixed sequence of nibbles
      and the number of them drawn so far. */
  class RandomSource {
    const rand: nat -> Nibble
    var drawn: nat

    constructor (r: nat -> Nibble)
      ensures rand == r && drawn == 0
    {
      rand := r;
      drawn := 0;
    }

    /** `uuidv4()`: the next identifier, made from the next 31 draws. */
    method NextUuid() returns (u: string)
      modifies this
      ensures u == Uuidv4(rand, old(drawn)) && drawn == old(drawn) + 31
    {
      u := Fill(Template, rand, drawn);
      UuidGroups(rand, drawn);
      drawn := drawn + Placeholders(Template);
    }
  }
}
