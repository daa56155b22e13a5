/** Character values, the 7-3-1 weight cycle and the check digit
    (`Digit`, `Multiplier`, `checkDigit` in assets/js/persogen.ts). */
module Checksum {
  import opened Errors

  /** The 36 characters a `Digit` accepts; a character's value is its index. */
  const Alphabet: string := "0123456789ABCDEFGHIJKLMNOPQRSTUVWXYZ"

  /** The filler character, which the check digit skips. */
  const Filler: char := '<'

  /** The weights, drawn in turn and cyclically. */
  const Weights: seq<nat> := [7, 3, 1]

  /** `s.indexOf(c)`: the first position of `c` in `s`. */
  function IndexOf(s: string, c: char): (k: nat)
    requires c in s
    ensures k < |s| && s[k] == c
    ensures forall j :: 0 <= j < k ==> s[j] != c
  {
    if s[0] == c then 0 else 1 + IndexOf(s[1..], c)
  }

  /** Character `k` of `Alphabet` is the k-th decimal digit, then the k-10-th letter. */
  lemma AlphabetAt(k: nat)
    requires k < 36
    ensures Alphabet[k] as int == if k < 10 then '0' as int + k else 'A' as int + k - 10
  {
  }

  /** `Digit.alphabet.includes(c)` for one character `c`: a decimal digit or
      an upper-case Latin letter. */
  predicate IsDigitChar(c: char)
  {
    '0' <= c <= '9' || 'A' <= c <= 'Z'
  }

  lemma IsDigitCharInAlphabet(c: char)
    ensures IsDigitChar(c) <==> c in Alphabet
  {
    if c in Alphabet {
      var k :| 0 <= k < |Alphabet| && Alphabet[k] == c;
      AlphabetAt(k);
    }
    if IsDigitChar(c) {
      var k := if c <= '9' then c as int - '0' as int else c as int - 'A' as int + 10;
      AlphabetAt(k);
    }
  }

  /** The `Digit` constructor: accepts exactly a one-character string over
      `Alphabet`, and otherwise throws naming the rejected string. */
  function NewDigit(digit: string): (r: Result<char>)
    ensures r.Ok? <==> |digit| == 1 && IsDigitChar(digit[0])
    ensures r.Ok? ==> r.value == digit[0]
    ensures r.Err? ==> r.error == InvalidCharacter(DigitField, digit)
  {
    if |digit| != 1 || !IsDigitChar(digit[0]) then Err(InvalidCharacter(DigitField, digit))
    else Ok(digit[0])
  }

  /** `Digit.valueOf`, which is `Digit.alphabet.indexOf(c)`: a decimal digit
      is worth its own number, a letter 10 for A up to 35 for Z. */
  function DigitValue(c: char): (v: nat)
    requires IsDigitChar(c)
    ensures v < 36
  {
    if c <= '9' then c as int - '0' as int else c as int - 'A' as int + 10
  }

  /** The value is the position of the first occurrence in `Alphabet`, as
      `indexOf` computes it, and every position has its own character. */
  lemma {:induction false} DigitValueIsIndexOf(c: char)
    requires IsDigitChar(c)
    ensures Alphabet[DigitValue(c)] == c
    ensures c in Alphabet && DigitValue(c) == IndexOf(Alphabet, c)
  {
    AlphabetAt(DigitValue(c));
    assert c in Alphabet;
    AlphabetAt(IndexOf(Alphabet, c));
  }

  /** Position `k` of `Alphabet` holds the character worth `k`. */
  lemma DigitValueOfPosition(k: nat)
    requires k < 36
    ensures IsDigitChar(Alphabet[k]) && DigitValue(Alphabet[k]) == k
  {
    AlphabetAt(k);
  }

  /** A `Multiplier`: an index into `Weights` that `valueOf` advances
      cyclically each time it hands out a weight. */
  class Multiplier {
    var index: nat

    ghost predicate Valid()
      reads this
    {
      index < |Weights|
    }

    constructor ()
      ensures Valid() && index == 0
    {
      index := 0;
    }

    /** `valueOf`: returns the current weight and moves to the next one. */
    method ValueOf() returns (multiplier: nat)
      requires Valid()
      modifies this
      ensures Valid()
      ensures multiplier == Weights[old(index)]
      ensures index == (old(index) + 1) % |Weights|
    {
      multiplier := Weights[index];
      index := (index + 1) % |Weights|;
    }
  }

  /** The weight drawn by the `position`-th call (counting from 0) to a
      fresh `Multiplier`'s `valueOf`. */
  function Weight(position: nat): nat
  {
    Weights[position % 3]
  }

  /** The characters of `s` that the check digit looks at: all but fillers, in order. */
  function Significant(s: string): (t: string)
    ensures |t| <= |s|
  {
    if s == [] then []
    else
      var last := s[|s| - 1];
      Significant(s[..|s| - 1]) + (if last == Filler then [] else [last])
  }

  /** The characters kept are exactly the non-filler characters. */
  lemma {:induction false} SignificantMembers(s: string)
    ensures forall c :: c in Significant(s) <==> c in s && c != Filler
    ensures forall i :: 0 <= i < |Significant(s)| ==> Significant(s)[i] != Filler
  {
    if s != [] {
      SignificantMembers(s[..|s| - 1]);
      assert s == s[..|s| - 1] + [s[|s| - 1]];
    }
  }

  /** The contribution of one character: (value * weight) % 10. */
  function Term(value: nat, weight: nat): nat
  {
    (value * weight) % 10
  }

  /** Sum over the characters of `t` of (value * weight) % 10, the weights
      cycling 7, 3, 1 from the first character on. */
  function WeightedSum(t: string): nat
    requires FirstInvalid(t).None?
  {
    if t == [] then 0
    else
      FirstInvalidAppend(t[..|t| - 1], [t[|t| - 1]]);
      assert t[..|t| - 1] + [t[|t| - 1]] == t;
      WeightedSum(t[..|t| - 1]) + Term(DigitValue(t[|t| - 1]), Weight(|t| - 1))
  }

  /** The first character of `t` that is not in `Alphabet`, if any. */
  function FirstInvalid(t: string): (r: Option<char>)
    ensures r.Some? ==> r.value in t && !IsDigitChar(r.value)
  {
    if t == [] then None
    else if !IsDigitChar(t[0]) then Some(t[0])
    else FirstInvalid(t[1..])
  }

  /** No invalid character is found exactly when all characters are valid. */
  lemma {:induction false} FirstInvalidNone(t: string)
    ensures FirstInvalid(t).None? <==> forall i :: 0 <= i < |t| ==> IsDigitChar(t[i])
  {
    if t != [] {
      FirstInvalidNone(t[1..]);
      assert forall i :: 1 <= i < |t| ==> t[i] == t[1..][i - 1];
    }
  }

  /** What `checkDigit(s)` returns or throws: the weighted sum of the
      non-filler characters modulo 10, or the invalid-character failure of
      the first non-filler character outside `Alphabet`. */
  function CheckDigitOf(s: string): (r: Result<nat>)
    ensures r.Ok? ==> r.value < 10
  {
    var t := Significant(s);
    match FirstInvalid(t)
    case Some(c) => Err(InvalidCharacter(DigitField, [c]))
    case None => Ok(WeightedSum(t) % 10)
  }

  /** `checkDigit` throws exactly when a non-filler character is not a
      valid `Digit`, and then it names one such character. */
  lemma CheckDigitFails(s: string)
    ensures CheckDigitOf(s).Ok? <==> forall i :: 0 <= i < |s| && s[i] != Filler ==> IsDigitChar(s[i])
    ensures CheckDigitOf(s).Err? ==>
              exists i :: 0 <= i < |s| && s[i] != Filler && !IsDigitChar(s[i]) &&
                          CheckDigitOf(s).error == InvalidCharacter(DigitField, [s[i]])
  {
    var t := Significant(s);
    SignificantMembers(s);
    FirstInvalidNone(t);
    match FirstInvalid(t)
    case Some(c) =>
      assert c in s;
    case None =>
      assert forall i :: 0 <= i < |s| && s[i] != Filler ==> s[i] in t;
  }

  /** Every character is a `Digit` character other than the filler. */
  predicate Checkable(s: string)
  {
    forall i :: 0 <= i < |s| ==> IsDigitChar(s[i]) && s[i] != Filler
  }

  lemma CheckableConcat(a: string, b: string)
    requires Checkable(a) && Checkable(b)
    ensures Checkable(a + b)
  {
    forall i | 0 <= i < |a + b| ensures IsDigitChar((a + b)[i]) && (a + b)[i] != Filler {
      if i < |a| { assert (a + b)[i] == a[i]; } else { assert (a + b)[i] == b[i - |a|]; }
    }
  }

  /** A checkable string always has a check digit. */
  lemma CheckableHasCheckDigit(s: string)
    requires Checkable(s)
    ensures CheckDigitOf(s).Ok?
  {
    CheckDigitFails(s);
  }

  /** After a checkable prefix, `checkDigit` fails exactly when it fails
      on the rest, and with the same error. */
  lemma CheckablePrefix(a: string, b: string)
    requires Checkable(a)
    ensures CheckDigitOf(a + b).Err? <==> CheckDigitOf(b).Err?
    ensures CheckDigitOf(a + b).Err? ==> CheckDigitOf(a + b).error == CheckDigitOf(b).error
  {
    SignificantAppend(a, b);
    SignificantNoFiller(a);
    FirstInvalidNone(a);
    FirstInvalidAppend(a, Significant(b));
  }

  /** The state of `checkDigit` after its first `i` characters: no invalid
      character so far, `sum` is the weighted sum of the significant ones
      and the `Multiplier` index is their count modulo 3. */
  ghost predicate Scanned(str: string, i: nat, sum: nat, index: nat)
  {
    i <= |str| &&
    FirstInvalid(Significant(str[..i])).None? &&
    sum == WeightedSum(Significant(str[..i])) &&
    index == |Significant(str[..i])| % 3
  }

  /** A filler leaves that state as it is. */
  lemma ScanFiller(str: string, i: nat, sum: nat, index: nat)
    requires Scanned(str, i, sum, index) && i < |str| && str[i] == Filler
    ensures Scanned(str, i + 1, sum, index)
  {
    SignificantStep(str, i);
  }

  /** A valid character adds its term and advances the index. */
  lemma ScanDigit(str: string, i: nat, sum: nat, index: nat)
    requires Scanned(str, i, sum, index) && i < |str| && str[i] != Filler && IsDigitChar(str[i])
    ensures index < 3
    ensures Scanned(str, i + 1, sum + Term(DigitValue(str[i]), Weights[index]), (index + 1) % 3)
  {
    SignificantStep(str, i);
    var done := Significant(str[..i]);
    WeightedSumStep(done, str[i]);
    NextIndex(|done|);
  }

  /** Once the whole string is scanned, `sum % 10` is the check digit. */
  lemma ScanDone(str: string, sum: nat, index: nat)
    requires Scanned(str, |str|, sum, index)
    ensures CheckDigitOf(str) == Ok(sum % 10)
  {
    assert str[..|str|] == str;
  }

  /** `checkDigit`: walks the string once, skipping fillers before a weight
      is drawn, and accumulates (value * weight) % 10 for every other
      character; the first character that is not a valid `Digit` throws. */
  method CheckDigit(str: string) returns (r: Result<nat>)
    ensures r == CheckDigitOf(str)
  {
    var sum: nat := 0;
    var multiplier := new Multiplier();
    for i := 0 to |str|
      invariant multiplier.Valid()
      invariant Scanned(str, i, sum, multiplier.index)
    {
      if str[i] == Filler {
        ScanFiller(str, i, sum, multiplier.index);
        continue;
      }
      var digit := NewDigit([str[i]]);
      if digit.Err? {
        CheckDigitStopsAt(str, i);
        return Err(digit.error);
      }
      ScanDigit(str, i, sum, multiplier.index);
      var weight := multiplier.ValueOf();
      sum := sum + (DigitValue(digit.value) * weight) % 10;
    }
    ScanDone(str, sum, multiplier.index);
    return Ok(sum % 10);
  }

  /** One more character of input adds itself to the significant part
      unless it is a filler. */
  lemma SignificantStep(s: string, i: nat)
    requires i < |s|
    ensures s[i] == Filler ==> Significant(s[..i + 1]) == Significant(s[..i])
    ensures s[i] != Filler ==> Significant(s[..i + 1]) == Significant(s[..i]) + [s[i]]
  {
    assert s[..i + 1][..i] == s[..i];
    assert Significant(s[..i]) + [] == Significant(s[..i]);
  }

  /** One more valid character adds its term, weighted by its position. */
  lemma WeightedSumStep(t: string, c: char)
    requires FirstInvalid(t).None? && IsDigitChar(c)
    ensures FirstInvalid(t + [c]).None?
    ensures WeightedSum(t + [c]) == WeightedSum(t) + Term(DigitValue(c), Weight(|t|))
  {
    FirstInvalidAppend(t, [c]);
    var u := t + [c];
    assert u[..|u| - 1] == t;
    assert u[|u| - 1] == c;
    assert WeightedSum(u) == WeightedSum(u[..|u| - 1]) + Term(DigitValue(u[|u| - 1]), Weight(|u| - 1));
  }

  /** Advancing the `Multiplier` index once keeps it at the count of weights drawn, modulo 3. */
  lemma NextIndex(n: nat)
    ensures (n % 3 + 1) % 3 == (n + 1) % 3
  {
  }

  /** When every non-filler character before position `i` is valid and the
      one at `i` is not, `checkDigit` throws for the one at `i`. */
  lemma CheckDigitStopsAt(s: string, i: nat)
    requires i < |s| && s[i] != Filler && !IsDigitChar(s[i])
    requires FirstInvalid(Significant(s[..i])).None?
    ensures CheckDigitOf(s) == Err(InvalidCharacter(DigitField, [s[i]]))
  {
    assert s == s[..i + 1] + s[i + 1..];
    assert s[..i + 1][..i] == s[..i];
    SignificantAppend(s[..i + 1], s[i + 1..]);
    var t := Significant(s[..i]);
    SignificantStep(s, i);
    FirstInvalidAppend(t, [s[i]] + Significant(s[i + 1..]));
    assert t + [s[i]] + Significant(s[i + 1..]) == t + ([s[i]] + Significant(s[i + 1..]));
  }

  /** Removing fillers distributes over concatenation. */
  lemma {:induction false} SignificantAppend(a: string, b: string)
    ensures Significant(a + b) == Significant(a) + Significant(b)
  {
    if b == [] {
      assert a + b == a;
    } else {
      var b' := b[..|b| - 1];
      assert (a + b)[..|a + b| - 1] == a + b';
      SignificantAppend(a, b');
    }
  }

  /** The first invalid character of a concatenation is the first invalid
      character of its left part, or else of its right part. */
  lemma {:induction false} FirstInvalidAppend(a: string, b: string)
    ensures FirstInvalid(a + b) == if FirstInvalid(a).Some? then FirstInvalid(a) else FirstInvalid(b)
  {
    if a != [] {
      assert (a + b)[0] == a[0];
      assert (a + b)[1..] == a[1..] + b;
      FirstInvalidAppend(a[1..], b);
    } else {
      assert a + b == b;
    }
  }

  /** A string with no filler is its own significant part. */
  lemma {:induction false} SignificantNoFiller(s: string)
    requires forall i :: 0 <= i < |s| ==> s[i] != Filler
    ensures Significant(s) == s
  {
    if s != [] {
      assert s == s[..|s| - 1] + [s[|s| - 1]];
      SignificantNoFiller(s[..|s| - 1]);
    }
  }

  /** Inserting a filler anywhere leaves the check digit, or its failure, unchanged. */
  lemma FillerInsensitive(a: string, b: string)
    ensures CheckDigitOf(a + [Filler] + b) == CheckDigitOf(a + b)
  {
    SignificantAppend(a + [Filler], b);
    SignificantAppend(a, [Filler]);
    assert Significant([Filler]) == Significant([Filler][..0]) == [];
    SignificantAppend(a, b);
    assert Significant(a + [Filler] + b) == Significant(a + b);
  }

  /** The check digit only depends on the non-filler characters. */
  lemma CheckDigitOfSignificant(s: string)
    ensures CheckDigitOf(Significant(s)) == CheckDigitOf(s)
  {
    SignificantMembers(s);
    SignificantNoFiller(Significant(s));
  }

  /** An empty or all-filler string has check digit 0. */
  lemma {:induction false} AllFillerCheckDigit(s: string)
    requires forall i :: 0 <= i < |s| ==> s[i] == Filler
    ensures Significant(s) == [] && CheckDigitOf(s) == Ok(0)
  {
    if s != [] {
      AllFillerCheckDigit(s[..|s| - 1]);
    }
  }

  /** "520": 5*7 + 2*3 + 0*1 = 41, so the check digit is 1. */
  lemma CheckDigitExample()
    ensures CheckDigitOf("520") == Ok(1)
    ensures CheckDigitOf("<<<<") == Ok(0)
  {
    SignificantNoFiller("520");
    WeightedSumFiveTwoZero();
    AllFillerCheckDigit("<<<<");
  }

  lemma WeightedSumFiveTwoZero()
    ensures FirstInvalid("520").None? && WeightedSum("520") == 11
  {
    WeightedSumFiveTwo();
    WeightedSumStep("52", '0');
    assert "52" + ['0'] == "520";
  }

  lemma WeightedSumFiveTwo()
    ensures FirstInvalid("52").None? && WeightedSum("52") == 11
  {
    WeightedSumStep([], '5');
    assert [] + ['5'] == "5";
    WeightedSumStep("5", '2');
    assert "5" + ['2'] == "52";
  }

  /** Every character is a `Digit` character or the filler. */
  predicate IcaoReadable(s: string)
  {
    forall i :: 0 <= i < |s| ==> IsDigitChar(s[i]) || s[i] == Filler
  }

  /** The check digit of ICAO Doc 9303 Part 3, section 4.9, for comparison:
      there the filler is worth 0 and still takes its weight. */
  function IcaoWeightedSum(s: string): int
    requires IcaoReadable(s)
  {
    if s == [] then 0
    else
      var last := s[|s| - 1];
      var value := if last == Filler then 0 else DigitValue(last);
      IcaoWeightedSum(s[..|s| - 1]) + value * Weight(|s| - 1)
  }

  /** Without fillers the two check digits agree. */
  lemma {:induction false} IcaoAgreesWithoutFiller(s: string)
    requires forall i :: 0 <= i < |s| ==> IsDigitChar(s[i])
    ensures CheckDigitOf(s).Ok?
    ensures CheckDigitOf(s).value == IcaoWeightedSum(s) % 10
  {
    SignificantNoFiller(s);
    SumsAgree(s);
  }

  lemma {:induction false} SumsAgree(s: string)
    requires forall i :: 0 <= i < |s| ==> IsDigitChar(s[i])
    ensures WeightedSum(s) % 10 == IcaoWeightedSum(s) % 10
  {
    if s != [] {
      var init := s[..|s| - 1];
      SumsAgree(init);
      var p := DigitValue(s[|s| - 1]) * Weight(|s| - 1);
      assert WeightedSum(s) == WeightedSum(init) + Term(DigitValue(s[|s| - 1]), Weight(|s| - 1));
      assert WeightedSum(s) == WeightedSum(init) + p % 10;
      assert IcaoWeightedSum(s) == IcaoWeightedSum(init) + p;
      SameDigitAfterAdding(WeightedSum(init), IcaoWeightedSum(init), p);
    }
  }

  lemma SameDigitAfterAdding(a: int, b: int, p: int)
    requires a % 10 == b % 10
    ensures (a + p % 10) % 10 == (b + p) % 10
  {
    assert b + p == b + p % 10 + 10 * (p / 10);
  }

  /** With a filler inside they may differ: "1<1" gets 1*7 + 1*3 here,
      but 1*7 + 0*3 + 1*1 in ICAO. */
  lemma IcaoDiffersWithFiller()
    ensures CheckDigitOf("1<1") == Ok(0)
    ensures IcaoWeightedSum("1<1") % 10 == 8
  {
    FillerInsensitive("1", "1");
    assert "1" + [Filler] + "1" == "1<1";
    SignificantNoFiller("11");
    WeightedSumOnes();
    IcaoOneFillerOne();
  }

  lemma WeightedSumOnes()
    ensures FirstInvalid("11").None? && WeightedSum("11") == 10
  {
    WeightedSumStep([], '1');
    assert [] + ['1'] == "1";
    WeightedSumStep("1", '1');
    assert "1" + ['1'] == "11";
  }

  lemma IcaoOneFillerOne()
    ensures IcaoWeightedSum("1<1") == 8
  {
    assert "1<1"[..2] == "1<" && "1<"[..1] == "1" && "1"[..0] == [];
  }

  predicate AllFiller(s: string)
  {
    forall i :: 0 <= i < |s| ==> s[i] == Filler
  }

  lemma IcaoReadableConcat(a: string, b: string)
    requires IcaoReadable(a) && IcaoReadable(b)
    ensures IcaoReadable(a + b)
  {
    forall i | 0 <= i < |a + b| ensures IsDigitChar((a + b)[i]) || (a + b)[i] == Filler {
      if i < |a| { assert (a + b)[i] == a[i]; } else { assert (a + b)[i] == b[i - |a|]; }
    }
  }

  /** In ICAO's sum fillers at the end add nothing. */
  lemma {:induction false} IcaoTrailingFillers(a: string, f: string)
    requires IcaoReadable(a) && AllFiller(f)
    ensures IcaoReadable(a + f)
    ensures IcaoWeightedSum(a + f) == IcaoWeightedSum(a)
  {
    IcaoReadableConcat(a, f);
    if f == [] {
      assert a + f == a;
    } else {
      var f0 := f[..|f| - 1];
      IcaoTrailingFillers(a, f0);
      assert (a + f)[..|a + f| - 1] == a + f0;
      assert (a + f)[|a + f| - 1] == f[|f| - 1] == Filler;
    }
  }

  /** A run of fillers whose length is a multiple of 3 leaves every later
      character on the weight it would have without the run, so ICAO's sum
      is the one of the string without it. */
  lemma {:induction false} IcaoSkipsFillers(a: string, f: string, b: string)
    requires IcaoReadable(a) && AllFiller(f) && |f| % 3 == 0 && IcaoReadable(b)
    ensures IcaoReadable(a + f + b) && IcaoReadable(a + b)
    ensures IcaoWeightedSum(a + f + b) == IcaoWeightedSum(a + b)
  {
    IcaoReadableConcat(a, f);
    IcaoReadableConcat(a + f, b);
    IcaoReadableConcat(a, b);
    if b == [] {
      assert a + f + b == a + f && a + b == a;
      IcaoTrailingFillers(a, f);
    } else {
      var b0 := b[..|b| - 1];
      var s, t := a + f + b, a + b;
      assert s[..|s| - 1] == a + f + b0 && s[|s| - 1] == b[|b| - 1];
      assert t[..|t| - 1] == a + b0 && t[|t| - 1] == b[|b| - 1];
      IcaoSkipsFillers(a, f, b0);
      assert |s| - 1 == (|t| - 1) + 3 * (|f| / 3);
      IcaoSameLast(s, t);
    }
  }

  /** Two strings whose sums agree before their last character, which they
      share at positions that draw the same weight, have the same sum. */
  lemma IcaoSameLast(s: string, t: string)
    requires IcaoReadable(s) && IcaoReadable(t) && s != [] && t != []
    requires IcaoReadable(s[..|s| - 1]) && IcaoReadable(t[..|t| - 1])
    requires IcaoWeightedSum(s[..|s| - 1]) == IcaoWeightedSum(t[..|t| - 1])
    requires s[|s| - 1] == t[|t| - 1] && (|s| - 1) % 3 == (|t| - 1) % 3
    ensures IcaoWeightedSum(s) == IcaoWeightedSum(t)
  {
  }
}
