/** BrainBox.hash: an 8-symbol fingerprint of a string, used to notice changes between
    successive saves. The first loop is Java's String.hashCode written with JavaScript's
    32-bit bitwise operators; the second spells the signed result in base 62, least
    significant symbol first. */
module Fingerprint {
  import opened Js

  const DigitRun: string := "0123456789"
  const LowerRun: string := "abcdefghijklmnopqrstuvwxyz"
  const UpperRun: string := "ABCDEFGHIJKLMNOPQRSTUVWXYZ"

  /** The 62 symbols in digit order: the digits, the lower-case and the upper-case letters. */
  const Alphabet: string := DigitRun + LowerRun + UpperRun

  /** The number of symbols emitted. */
  const Width: nat := 8

  /** A UTF-16 code unit, as String.prototype.charCodeAt returns it. */
  type CodeUnit = c: int | 0 <= c < 0x1_0000

  /** The symbol for digit value d, computed from the three runs of the alphabet. */
  function SymbolFor(d: nat): char
    requires d < 62
  {
    if d < 10 then ('0' as int + d) as char
    else if d < 36 then ('a' as int + (d - 10)) as char
    else ('A' as int + (d - 36)) as char
  }

  /** The digit value of a symbol of the alphabet. */
  function SymbolValue(c: char): nat {
    if '0' <= c <= '9' then c as int - '0' as int
    else if 'a' <= c <= 'z' then c as int - 'a' as int + 10
    else if 'A' <= c <= 'Z' then c as int - 'A' as int + 36
    else 0
  }

  /** s spells the digit values d, d+1, ... */
  predicate SpellsFrom(s: string, d: nat) {
    forall k :: 0 <= k < |s| ==> d + k < 62 && s[k] == SymbolFor(d + k)
  }

  lemma DigitRunSpells()
    ensures SpellsFrom(DigitRun, 0)
  {
  }

  lemma LowerRunSpells()
    ensures SpellsFrom(LowerRun, 10)
  {
  }

  lemma UpperRunSpells()
    ensures SpellsFrom(UpperRun, 36)
  {
  }

  /** A symbol's position in the alphabet is its digit value. */
  lemma AlphabetSpells()
    ensures |Alphabet| == 62
    ensures forall d :: 0 <= d < 62 ==> Alphabet[d] == SymbolFor(d)
  {
    forall d | 0 <= d < 62 ensures Alphabet[d] == SymbolFor(d) {
      if d < 10 {
        DigitRunSpells();
        assert Alphabet[d] == DigitRun[d];
      } else if d < 36 {
        LowerRunSpells();
        assert Alphabet[d] == LowerRun[d - 10];
      } else {
        UpperRunSpells();
        assert Alphabet[d] == UpperRun[d - 36];
      }
    }
  }

  /** SymbolValue reads a symbol's digit value back. */
  lemma SymbolValueOfSymbol(d: nat)
    requires d < 62
    ensures SymbolValue(SymbolFor(d)) == d
  {
  }

  /** The alphabet's symbols, read back, give their positions. */
  lemma AlphabetLayout()
    ensures |Alphabet| == 62
    ensures forall d :: 0 <= d < 62 ==> Alphabet[d] == SymbolFor(d)
    ensures forall d :: 0 <= d < 62 ==> SymbolValue(Alphabet[d]) == d
  {
    AlphabetSpells();
    forall d | 0 <= d < 62 ensures SymbolValue(Alphabet[d]) == d {
      SymbolValueOfSymbol(d);
    }
  }

  // ---------------------------------------------------------------------------------------
  // The accumulator loop

  /** One iteration of the first loop as written: `v0 = ((v0 << 5) - v0) + ch`, where the
      shift converts to a signed 32-bit value and back, then `v0 = v0 & v0`, which converts
      the sum to a signed 32-bit value. */
  function StepAsWritten(acc: int, ch: CodeUnit): int {
    ToInt32(ToInt32(ToInt32(acc) * 32) - acc + ch)
  }

  /** The shift-and-subtract step is Java's `h = 31 * h + c` in 32-bit two's complement. */
  lemma StepIsJavaStep(acc: int, ch: CodeUnit)
    requires IsInt32(acc)
    ensures StepAsWritten(acc, ch) == ToInt32(31 * acc + ch)
  {
    ToInt32OfInt32(acc);
    var shifted := ToInt32(acc * 32);
    CongruentAffine(shifted, acc * 32, 1, ch - acc);
    ToInt32Congruent(shifted - acc + ch, 31 * acc + ch);
  }

  /** The accumulator after the first loop has read all of s. */
  function Accumulate(s: seq<CodeUnit>): (h: int)
    ensures IsInt32(h)
  {
    if s == [] then 0 else StepAsWritten(Accumulate(s[..|s| - 1]), s[|s| - 1])
  }

  /** Java's documented String.hashCode formula s[0]*31^(n-1) + ... + s[n-1], in Horner
      form and without overflow. */
  function Polynomial(s: seq<CodeUnit>): int {
    if s == [] then 0 else 31 * Polynomial(s[..|s| - 1]) + s[|s| - 1]
  }

  /** The accumulator is Java's String.hashCode: the formula reduced to a signed 32-bit
      value. */
  lemma {:induction false} AccumulateIsHashCode(s: seq<CodeUnit>)
    ensures Accumulate(s) == ToInt32(Polynomial(s))
  {
    if s != [] {
      var p, c := s[..|s| - 1], s[|s| - 1];
      AccumulateIsHashCode(p);
      StepIsJavaStep(Accumulate(p), c);
      CongruentAffine(Polynomial(p), Accumulate(p), 31, c);
      ToInt32Congruent(31 * Polynomial(p) + c, 31 * Accumulate(p) + c);
    }
  }

  // ---------------------------------------------------------------------------------------
  // The symbol loop

  /** The symbol index one iteration of the second loop emits for v:
      `Math.abs(v - parseInt(v / 62) * 62)`; it always lies in [0, 62). */
  function SymbolIndex(v: int): (d: nat)
    ensures d < 62
  {
    TruncDivRemainder(v, 62);
    Abs(v - TruncDiv(v, 62) * 62)
  }

  /** The indices emitted by n iterations of the second loop, starting from v. */
  function SymbolIndices(v: int, n: nat): (ds: seq<nat>)
    ensures |ds| == n
    ensures forall k :: 0 <= k < n ==> ds[k] < 62
    decreases n
  {
    if n == 0 then [] else [SymbolIndex(v)] + SymbolIndices(TruncDiv(v, 62), n - 1)
  }

  predicate AllDigits(ds: seq<nat>) {
    forall k :: 0 <= k < |ds| ==> ds[k] < 62
  }

  /** The symbols of the alphabet at the positions ds. */
  function Spell(ds: seq<nat>): string
    requires AllDigits(ds)
  {
    AlphabetLayout();
    seq(|ds|, k requires 0 <= k < |ds| => Alphabet[ds[k]])
  }

  /** The digit values of the symbols of r. */
  function Unspell(r: string): seq<nat> {
    seq(|r|, k requires 0 <= k < |r| => SymbolValue(r[k]))
  }

  lemma UnspellSpell(ds: seq<nat>)
    requires AllDigits(ds)
    ensures Unspell(Spell(ds)) == ds
  {
    AlphabetLayout();
  }

  /** The fingerprint of s: exactly Width symbols, each from the alphabet. */
  function HashOf(s: seq<CodeUnit>): (r: string)
    ensures |r| == Width
    ensures forall k :: 0 <= k < |r| ==> r[k] in Alphabet
  {
    Spell(SymbolIndices(Accumulate(s), Width))
  }

  lemma AccumulateStep(s: seq<CodeUnit>, i: nat)
    requires i < |s|
    ensures Accumulate(s[..i + 1]) == StepAsWritten(Accumulate(s[..i]), s[i])
  {
    assert s[..i + 1][..i] == s[..i];
  }

  /** The first loop of BrainBox.hash: the accumulator after reading every code unit. */
  method HashCode(str: seq<CodeUnit>) returns (v0: int)
    ensures v0 == Accumulate(str)
  {
    v0 := 0;
    var i := 0;
    while i < |str|
      invariant 0 <= i <= |str|
      invariant v0 == Accumulate(str[..i])
    {
      var ch := str[i];
      ghost var prev := v0;
      v0 := ToInt32(ToInt32(v0) * 32) - v0 + ch;
      v0 := ToInt32(v0);
      assert v0 == StepAsWritten(prev, ch);
      AccumulateStep(str, i);
      i := i + 1;
    }
    assert str[..i] == str;
  }

  /** The second loop of BrainBox.hash: Width symbols, each picked by the remainder of the
      truncating division of what is left of the accumulator by the alphabet's size. */
  method Symbols(h: int) returns (res: string)
    ensures res == Spell(SymbolIndices(h, Width))
  {
    var v0 := h;
    ghost var ds := SymbolIndices(h, Width);
    var sz := |Alphabet|;
    assert sz == 62;
    res := "";
    var i := 0;
    while i < Width
      invariant 0 <= i <= Width
      invariant |res| == i
      invariant forall k :: 0 <= k < i ==> res[k] == Alphabet[ds[k]]
      invariant SymbolIndices(v0, Width - i) == ds[i..]
    {
      var v1 := TruncDiv(v0, sz);
      var v := Abs(v0 - v1 * sz);
      assert v == SymbolIndex(v0);
      assert v == ds[i] && SymbolIndices(v1, Width - i - 1) == ds[i + 1..] by {
        assert SymbolIndices(v0, Width - i)[1..] == SymbolIndices(v1, Width - i - 1);
      }
      res := res + [Alphabet[v]];
      v0 := v1;
      i := i + 1;
    }
  }

  /** BrainBox.hash: the hash code of str, spelled as Width symbols of the alphabet. */
  method Hash(str: seq<CodeUnit>) returns (res: string)
    ensures res == HashOf(str)
  {
    var v0 := HashCode(str);
    res := Symbols(v0);
  }

  // ---------------------------------------------------------------------------------------
  // What the symbols encode

  /** Base-62 value of a digit sequence, least significant digit first. */
  function Decode(ds: seq<nat>): nat {
    if ds == [] then 0 else ds[0] + 62 * Decode(ds[1..])
  }

  function Pow62(n: nat): nat {
    if n == 0 then 1 else 62 * Pow62(n - 1)
  }

  /** The magnitude of v is the digit the loop emits plus 62 times the magnitude of the
      truncated quotient it carries on. */
  lemma AbsSplit(v: int)
    ensures Abs(v) == SymbolIndex(v) + 62 * Abs(TruncDiv(v, 62))
  {
    TruncDivRemainder(v, 62);
  }

  /** n iterations of the symbol loop write the magnitude of v in base 62, as long as it
      has at most n digits. */
  lemma {:induction false} DecodeSymbolIndices(v: int, n: nat)
    requires Abs(v) < Pow62(n)
    ensures Decode(SymbolIndices(v, n)) == Abs(v)
    decreases n
  {
    if n > 0 {
      var q := TruncDiv(v, 62);
      var ds := SymbolIndices(v, n);
      AbsSplit(v);
      assert Abs(q) < Pow62(n - 1) by {
        assert Pow62(n) == 62 * Pow62(n - 1);
      }
      DecodeSymbolIndices(q, n - 1);
      assert ds[0] == SymbolIndex(v) && ds[1..] == SymbolIndices(q, n - 1);
      assert Decode(ds) == ds[0] + 62 * Decode(ds[1..]);
    }
  }

  /** The symbol loop sees only the magnitude of v. */
  lemma {:induction false} SymbolIndicesOfNegation(v: int, n: nat)
    ensures SymbolIndices(-v, n) == SymbolIndices(v, n)
    decreases n
  {
    if n > 0 {
      assert TruncDiv(-v, 62) == -TruncDiv(v, 62);
      assert SymbolIndex(-v) == SymbolIndex(v);
      SymbolIndicesOfNegation(TruncDiv(v, 62), n - 1);
    }
  }

  /** The fingerprint spells the magnitude of the hash code in base 62, and reading the
      symbols back gives that magnitude. */
  lemma HashSpellsMagnitude(s: seq<CodeUnit>)
    ensures Decode(Unspell(HashOf(s))) == Abs(Accumulate(s))
  {
    var ds := SymbolIndices(Accumulate(s), Width);
    assert Pow62(Width) == 218340105584896;
    DecodeSymbolIndices(Accumulate(s), Width);
    UnspellSpell(ds);
  }

  /** Two strings share a fingerprint exactly when their hash codes have the same
      magnitude: the fingerprint loses only the sign. */
  lemma SameHashIff(s: seq<CodeUnit>, t: seq<CodeUnit>)
    ensures HashOf(s) == HashOf(t) <==> Abs(Accumulate(s)) == Abs(Accumulate(t))
  {
    HashSpellsMagnitude(s);
    HashSpellsMagnitude(t);
    var a, b := Accumulate(s), Accumulate(t);
    if Abs(a) == Abs(b) {
      if a != b {
        assert a == -b;
        SymbolIndicesOfNegation(b, Width);
      }
    }
  }
}
