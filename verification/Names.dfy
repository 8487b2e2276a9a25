/** Names with a numeric suffix, and the name table of a package. A name ending in
    an underscore and a plain decimal number is stored as its base plus that number
    plus one, so that all numbered variants share one table entry. */
module Names {
  import opened Zen

  const I32_LIMIT := 0x8000_0000

  type I32 = v: int | -0x8000_0000 <= v < 0x8000_0000

  /** Overflow wraps around; it is not checked in release builds. */
  function Increment(v: I32): I32 {
    if v == I32_LIMIT - 1 then -I32_LIMIT else v + 1
  }

  function Decrement(v: I32): I32 {
    if v == -I32_LIMIT then I32_LIMIT - 1 else v - 1
  }

  // ----------------------------------------------------------------- decimals

  function Digit(d: nat): char
    requires d < 10
  {
    "0123456789"[d]
  }

  predicate IsDigit(c: char) {
    '0' <= c <= '9'
  }

  function DigitValue(c: char): nat
    requires IsDigit(c)
  {
    c as int - '0' as int
  }

  predicate AllDigits(s: string) {
    forall i :: 0 <= i < |s| ==> IsDigit(s[i])
  }

  /** The decimal notation of a number, without leading zeros. */
  function Decimal(n: nat): (s: string)
    ensures s != [] && AllDigits(s)
  {
    if n < 10 then [Digit(n)] else Decimal(n / 10) + [Digit(n % 10)]
  }

  function DigitsValue(s: string): nat
    requires AllDigits(s)
  {
    if s == [] then 0 else 10 * DigitsValue(s[..|s| - 1]) + DigitValue(s[|s| - 1])
  }

  function ToString(v: int): string {
    if v < 0 then "-" + Decimal(-v) else Decimal(v)
  }

  /** Parses an optional sign followed by at least one digit, in 32 bits. */
  function ParseI32(s: string): Option<I32> {
    var negative := s != [] && s[0] == '-';
    var digits := if s != [] && (s[0] == '-' || s[0] == '+') then s[1..] else s;
    if digits == [] || !AllDigits(digits) then None
    else
      var value: int := DigitsValue(digits);
      var v := if negative then -value else value;
      if -I32_LIMIT <= v < I32_LIMIT then Some(v) else None
  }

  lemma {:induction false} DecimalValue(n: nat)
    ensures DigitsValue(Decimal(n)) == n
  {
    if n >= 10 {
      DecimalValue(n / 10);
      assert Decimal(n)[..|Decimal(n)| - 1] == Decimal(n / 10);
    }
  }

  /** The number a suffix denotes: it must parse as a 32-bit integer that is not
      negative and prints back as the same text, so "04" and "+4" are no numbers. */
  function SuffixNumber(s: string): (r: Option<nat>)
    ensures r.Some? ==> r.value < I32_LIMIT && s == Decimal(r.value)
  {
    var parsed := ParseI32(s);
    if parsed.Some? && parsed.value >= 0 && ToString(parsed.value) == s then Some(parsed.value) else None
  }

  lemma {:induction false} SuffixNumberOfDecimal(n: nat)
    requires n < I32_LIMIT
    ensures SuffixNumber(Decimal(n)) == Some(n)
  {
    DecimalValue(n);
    assert IsDigit(Decimal(n)[0]);
  }

  lemma {:induction false} SuffixNumberOfNegative(v: int)
    requires v < 0
    ensures SuffixNumber(ToString(v)) == None
  {
    assert ToString(v)[0] == '-';
    var n := SuffixNumber(ToString(v));
    assert n.Some? ==> IsDigit(Decimal(n.value)[0]);
  }

  // --------------------------------------------------------- the suffix codec

  /** The position of the last underscore. */
  function LastUnderscore(s: string): (r: Option<nat>)
    ensures r.Some? ==> r.value < |s| && s[r.value] == '_' && '_' !in s[r.value + 1..]
    ensures r.None? ==> '_' !in s
  {
    if s == [] then None
    else if s[|s| - 1] == '_' then Some(|s| - 1)
    else
      var r := LastUnderscore(s[..|s| - 1]);
      assert r.Some? ==> s[r.value + 1..] == s[..|s| - 1][r.value + 1..] + [s[|s| - 1]];
      assert s == s[..|s| - 1] + [s[|s| - 1]];
      r
  }

  /** Splits a name into its base and its number; number 0 means no number. */
  function BreakDown(name: string): (string, I32) {
    match LastUnderscore(name)
    case None => (name, 0)
    case Some(i) =>
      match SuffixNumber(name[i + 1..])
      case None => (name, 0)
      case Some(n) => (name[..i], Increment(n))
  }

  function Compose(base: string, number: I32): string {
    if number != 0 then Join(base, ToString(Decrement(number))) else base
  }

  function Join(base: string, suffix: string): string {
    base + "_" + suffix
  }

  ghost predicate EndsInNumber(name: string) {
    exists base, n: nat :: n < I32_LIMIT && name == Join(base, Decimal(n))
  }

  lemma {:induction false} LastUnderscoreOfJoin(base: string, suffix: string)
    requires '_' !in suffix
    ensures LastUnderscore(Join(base, suffix)) == Some(|base|)
    ensures Join(base, suffix)[..|base|] == base && Join(base, suffix)[|base| + 1..] == suffix
  {
    var name := Join(base, suffix);
    var i := LastUnderscore(name);
    assert name[|base|] == '_';
    assert name[|base| + 1..] == suffix;
  }

  lemma {:induction false} BreakDownJoin(base: string, suffix: string)
    requires '_' !in suffix
    ensures BreakDown(Join(base, suffix)) ==
            match SuffixNumber(suffix)
            case None => (Join(base, suffix), 0)
            case Some(n) => (base, Increment(n))
  {
    LastUnderscoreOfJoin(base, suffix);
  }

  lemma {:induction false} BreakDownNumbered(base: string, n: nat)
    requires n < I32_LIMIT
    ensures BreakDown(Join(base, Decimal(n))) == (base, Increment(n)) && Increment(n) != 0
  {
    SuffixNumberOfDecimal(n);
    BreakDownJoin(base, Decimal(n));
  }

  lemma {:induction false} NumberIsSplitOff(name: string)
    requires BreakDown(name).1 != 0
    ensures var n := Decrement(BreakDown(name).1);
            0 <= n && name == Join(BreakDown(name).0, Decimal(n))
  {
    var i := LastUnderscore(name).value;
    assert name == Join(name[..i], name[i + 1..]);
  }

  /** No information is lost: every name is restored exactly, a suffix of 2147483647
      included, and a number is split off if and only if the name ends in one. */
  lemma {:induction false} NameRoundTrip(name: string)
    ensures Compose(BreakDown(name).0, BreakDown(name).1) == name
    ensures BreakDown(name).1 != 0 <==> EndsInNumber(name)
  {
    if BreakDown(name).1 != 0 {
      NumberIsSplitOff(name);
    }
    if EndsInNumber(name) {
      var base, n: nat :| n < I32_LIMIT && name == Join(base, Decimal(n));
      BreakDownNumbered(base, n);
    }
  }

  /** The converse: a stored pair is the one its text breaks down to exactly when an
      unnumbered base carries no number of its own, and a numbered one a number that
      is not negative. */
  lemma {:induction false} PairRoundTrip(base: string, number: I32)
    ensures BreakDown(Compose(base, number)) == (base, number) <==>
            if number == 0 then !EndsInNumber(base) else Decrement(number) >= 0
  {
    var n := Decrement(number);
    if number == 0 {
      NameRoundTrip(base);
    } else if n >= 0 {
      BreakDownNumbered(base, n);
    } else {
      SuffixNumberOfNegative(n);
      BreakDownJoin(base, ToString(n));
    }
  }

  // ------------------------------------------------------------ the name table

  /** Index into a name table plus the number split off the name. */
  datatype MinimalName = MinimalName(index: nat, number: I32)

  predicate Named(names: seq<string>, name: MinimalName) {
    name.index < |names|
  }

  function NameText(names: seq<string>, name: MinimalName): string
    requires Named(names, name)
  {
    Compose(names[name.index], name.number)
  }

  class NameMap {
    var names: seq<string>
    var lookup: map<string, nat>

    ghost predicate Valid()
      reads this
    {
      && (forall i :: 0 <= i < |names| ==> names[i] in lookup)
      && forall n :: n in lookup ==> lookup[n] < |names| && names[lookup[n]] == n
    }

    /** Takes over a list of names; of equal names the last one is found. */
    constructor FromNames(initial: seq<string>)
      ensures Valid() && names == initial
      ensures forall i :: 0 <= i < |initial| ==> lookup[initial[i]] >= i
    {
      names := initial;
      var l: map<string, nat> := map[];
      for i := 0 to |initial|
        invariant forall j :: 0 <= j < i ==> initial[j] in l && l[initial[j]] >= j
        invariant forall n :: n in l ==> l[n] < i && initial[l[n]] == n
      {
        l := l[initial[i] := i];
      }
      lookup := l;
    }

    function Get(name: MinimalName): string
      reads this
      requires Named(names, name)
    {
      NameText(names, name)
    }

    /** Finds or adds a base name. Earlier entries keep their index. */
    method StoreBase(base: string) returns (index: nat)
      requires Valid()
      modifies this
      ensures Valid() && base in lookup && index == lookup[base]
      ensures forall n :: n in old(lookup) ==> n in lookup && lookup[n] == old(lookup[n])
      ensures names == if base in old(lookup) then old(names) else old(names) + [base]
    {
      if base in lookup {
        return lookup[base];
      }
      index := |names|;
      lookup := lookup[base := index];
      names := names + [base];
    }

    /** Finds or adds a name; the result reads back as the stored text, and all
        numbered variants of a base share its entry. */
    method Store(name: string) returns (r: MinimalName)
      requires Valid()
      modifies this
      ensures Valid() && Named(names, r) && Get(r) == name
      ensures forall n :: n in old(lookup) ==> n in lookup && lookup[n] == old(lookup[n])
      ensures old(names) <= names && |names| <= |old(names)| + 1
      ensures names == old(names) || names[r.index] !in old(names)
      ensures lookup[names[r.index]] == r.index
      ensures (names[r.index], r.number) == BreakDown(name)
    {
      var broken := BreakDown(name);
      NameRoundTrip(name);
      var index := StoreBase(broken.0);
      r := MinimalName(index, broken.1);
    }
  }
}
