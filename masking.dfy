/**
 * The character-class-preserving masker `mask(str, seed)` and its helper
 * `randomChar(r, cs, uppercase)`.
 *
 * Every character is lower-cased and looked up in three alphabets
 * (consonants, vowels including `y`, digits); a character found in one is
 * replaced by a member of the same alphabet drawn from a generator seeded
 * with `seed`, upper-cased when lower-casing had changed the original.
 * Every other character is copied.
 */
module Masking {
  import opened JavaRandom

  const CONSONANTS: string := "bcdfghjklmnpqrstvwxz"
  const VOWELS: string := "aeiouy"
  const DIGITS: string := "0123456789"

  /**
   * `Character.toLowerCase`, as far as the masker can observe it.  The only
   * characters whose lower-case form is an ASCII letter or digit are the
   * ASCII capitals, U+0130 (capital I with dot above, lower-cased to `i`) and
   * U+212A (the Kelvin sign, lower-cased to `k`).  Every other character is
   * mapped to itself here: its true lower-case form lies in none of the three
   * alphabets either way, so the masker copies it unchanged.
   */
  function ToLowerCase(c: char): char
  {
    if 'A' <= c <= 'Z' then (c as int + 32) as char
    else if c == '\U{0130}' then 'i'
    else if c == '\U{212A}' then 'k'
    else c
  }

  /** `Character.toUpperCase` on the members of the three alphabets. */
  function ToUpperCase(c: char): char
  {
    if 'a' <= c <= 'z' then (c as int - 32) as char else c
  }

  datatype CharClass = Consonant | Vowel | Digit | Other

  function Alphabet(k: CharClass): string
  {
    match k
    case Consonant => CONSONANTS
    case Vowel => VOWELS
    case Digit => DIGITS
    case Other => ""
  }

  /** The alphabet the lower-cased character is found in, tried in the order the masker tries them. */
  function Classify(c: char): CharClass
  {
    var ln := ToLowerCase(c);
    if ln in CONSONANTS then Consonant
    else if ln in VOWELS then Vowel
    else if ln in DIGITS then Digit
    else Other
  }

  /** The masker's "was upper case" flag: lower-casing changed the character. */
  predicate IsUpper(c: char)
  {
    ToLowerCase(c) != c
  }

  lemma ConsonantsAreLowerAscii(x: char)
    requires x in CONSONANTS
    ensures 'b' <= x <= 'z' && x !in VOWELS && x !in DIGITS
  {
    assert x !in "aeiouy" by {
      var k :| 0 <= k < |CONSONANTS| && CONSONANTS[k] == x;
      assert k < 10 || 10 <= k;
    }
  }

  lemma VowelsAreLowerAscii(x: char)
    requires x in VOWELS
    ensures 'a' <= x <= 'y' && x !in CONSONANTS && x !in DIGITS
  {
  }

  lemma DigitsAreAscii(x: char)
    requires x in DIGITS
    ensures '0' <= x <= '9' && x !in CONSONANTS && x !in VOWELS
  {
  }

  /** The members of each alphabet are lower-case ASCII, belong to no other alphabet, and classify back to it. */
  lemma AlphabetsAreLowerAscii(k: CharClass, x: char)
    requires x in Alphabet(k)
    ensures ('a' <= x <= 'z' || '0' <= x <= '9') && ToLowerCase(x) == x
    ensures Classify(x) == k && Classify(ToUpperCase(x)) == k
    ensures k == Digit <==> '0' <= x <= '9'
  {
    match k
    case Consonant => ConsonantsAreLowerAscii(x);
    case Vowel => VowelsAreLowerAscii(x);
    case Digit => DigitsAreAscii(x);
  }

  /**
   * `randomChar(r, cs, uppercase)` on the generator state: a member of `cs`
   * picked by one `nextInt(|cs|)` draw, upper-cased on request.
   */
  function PickChar(s: int, cs: string, uppercase: bool): (res: (char, int))
    requires |cs| > 0
    ensures res.1 == Advance(s)
    ensures exists k :: 0 <= k < |cs| && res.0 == (if uppercase then ToUpperCase(cs[k]) else cs[k])
  {
    var (k, next) := NextIntOf(s, |cs|);
    var c := cs[k];
    (if uppercase then ToUpperCase(c) else c, next)
  }

  /**
   * One position of `mask`: the masked character and the generator state
   * after it.  The output stays in the input's class and keeps its case; a
   * character of no class is copied and draws nothing.
   */
  function MaskChar(c: char, s: int): (res: (char, int))
    ensures Classify(res.0) == Classify(c)
    ensures IsUpper(res.0) == IsUpper(c)
    ensures Classify(c) == Other ==> res == (c, s)
    ensures Classify(c) != Other ==>
              && res.1 == Advance(s)
              && ToLowerCase(res.0) in Alphabet(Classify(c))
              && (if IsUpper(c) then 'A' <= res.0 <= 'Z' else ToLowerCase(res.0) == res.0)
  {
    var k := Classify(c);
    if k == Other then (c, s)
    else
      var res := PickChar(s, Alphabet(k), IsUpper(c));
      var j :| 0 <= j < |Alphabet(k)| && res.0 == (if IsUpper(c) then ToUpperCase(Alphabet(k)[j]) else Alphabet(k)[j]);
      AlphabetsAreLowerAscii(k, Alphabet(k)[j]);
      AlphabetsAreLowerAscii(k, ToLowerCase(c));
      res
  }

  /** `MaskChar` as the chain of alphabet look-ups the masker's loop performs. */
  lemma MaskCharByBranches(c: char, s: int)
    ensures MaskChar(c, s) ==
              var ln := ToLowerCase(c);
              if ln in CONSONANTS then PickChar(s, CONSONANTS, ln != c)
              else if ln in VOWELS then PickChar(s, VOWELS, ln != c)
              else if ln in DIGITS then PickChar(s, DIGITS, ln != c)
              else (c, s)
  {
  }

  /** `mask` over a whole string from generator state `s`: the masked string and the final state. */
  function MaskRun(str: string, s: int): (res: (string, int))
    ensures |res.0| == |str|
    decreases |str|
  {
    if |str| == 0 then ("", s)
    else
      var (prefix, mid) := MaskRun(str[..|str| - 1], s);
      var (c, next) := MaskChar(str[|str| - 1], mid);
      (prefix + [c], next)
  }

  /** The value `mask(str, seed)` returns: a fresh generator per call, so it depends on `str` and `seed` alone. */
  function Masked(str: string, seed: int): string
  {
    MaskRun(str, InitialState(seed)).0
  }

  /** How many characters of `str` belong to one of the three alphabets. */
  function ClassifiedCount(str: string): nat
    decreases |str|
  {
    if |str| == 0 then 0
    else ClassifiedCount(str[..|str| - 1]) + (if Classify(str[|str| - 1]) == Other then 0 else 1)
  }

  /** The generator is advanced exactly once per classified character and never for any other. */
  lemma {:induction false} MaskRunDraws(str: string, s: int)
    ensures MaskRun(str, s).1 == AdvanceBy(s, ClassifiedCount(str))
    decreases |str|
  {
    if |str| > 0 {
      var init, last := str[..|str| - 1], str[|str| - 1];
      MaskRunDraws(init, s);
      var mid := MaskRun(init, s).1;
      assert MaskRun(str, s).1 == MaskChar(last, mid).1;
      if Classify(last) == Other {
        assert MaskChar(last, mid).1 == mid;
      } else {
        assert MaskChar(last, mid).1 == Advance(mid);
        assert ClassifiedCount(str) == ClassifiedCount(init) + 1;
      }
    }
  }

  /** Position `i` of the output is the masked `str[i]`, drawn from the state the prefix before it left. */
  lemma {:induction false} MaskRunAt(str: string, s: int, i: nat)
    requires i < |str|
    ensures MaskRun(str, s).0[i] == MaskChar(str[i], MaskRun(str[..i], s).1).0
    decreases |str|
  {
    var init := str[..|str| - 1];
    if i < |str| - 1 {
      MaskRunAt(init, s, i);
      assert init[..i] == str[..i];
    } else {
      assert init == str[..i];
    }
  }

  /**
   * Position `i` of `mask(str, seed)`, in closed form: `str[i]` masked with
   * the generator advanced once for each classified character before it.
   */
  lemma MaskedAt(str: string, seed: int, i: nat)
    requires i < |str|
    ensures |Masked(str, seed)| == |str|
    ensures Masked(str, seed)[i] == MaskChar(str[i], AdvanceBy(InitialState(seed), ClassifiedCount(str[..i]))).0
  {
    MaskRunAt(str, InitialState(seed), i);
    MaskRunDraws(str[..i], InitialState(seed));
  }

  /** Characters in none of the alphabets (punctuation, white space, other letters) are copied. */
  lemma MaskKeepsOtherChars(str: string, seed: int, i: nat)
    requires i < |str| && Classify(str[i]) == Other
    ensures |Masked(str, seed)| == |str| && Masked(str, seed)[i] == str[i]
  {
    MaskedAt(str, seed, i);
  }

  /** A consonant becomes a consonant, a vowel a vowel, a digit a digit. */
  lemma MaskKeepsClass(str: string, seed: int, i: nat)
    requires i < |str|
    ensures |Masked(str, seed)| == |str|
    ensures Classify(Masked(str, seed)[i]) == Classify(str[i])
    ensures Classify(str[i]) != Other ==> ToLowerCase(Masked(str, seed)[i]) in Alphabet(Classify(str[i]))
  {
    MaskedAt(str, seed, i);
  }

  /**
   * Case is kept: a masked character is an ASCII capital exactly when the
   * input was changed by lower-casing, and a digit is never upper-cased.
   */
  lemma MaskKeepsCase(str: string, seed: int, i: nat)
    requires i < |str|
    ensures |Masked(str, seed)| == |str|
    ensures IsUpper(Masked(str, seed)[i]) == IsUpper(str[i])
    ensures Classify(str[i]) != Other ==> ('A' <= Masked(str, seed)[i] <= 'Z' <==> IsUpper(str[i]))
    ensures Classify(str[i]) == Digit ==> !IsUpper(Masked(str, seed)[i])
  {
    MaskedAt(str, seed, i);
    if Classify(str[i]) == Digit {
      AlphabetsAreLowerAscii(Digit, ToLowerCase(str[i]));
    }
  }

  /** Two characters of the same class and case, or one same unclassified character, mask alike. */
  predicate SameShape(c: char, d: char)
  {
    Classify(c) == Classify(d) && IsUpper(c) == IsUpper(d) && (Classify(c) == Other ==> c == d)
  }

  lemma {:induction false} MaskRunShape(str: string, other: string, s: int)
    requires |str| == |other|
    requires forall i :: 0 <= i < |str| ==> SameShape(str[i], other[i])
    ensures MaskRun(str, s) == MaskRun(other, s)
    decreases |str|
  {
    if |str| > 0 {
      MaskRunShape(str[..|str| - 1], other[..|other| - 1], s);
    }
  }

  /**
   * For a fixed seed the output depends only on the class and case of each
   * character (and on the unclassified characters themselves).
   */
  lemma MaskedDependsOnlyOnShape(str: string, other: string, seed: int)
    requires |str| == |other|
    requires forall i :: 0 <= i < |str| ==> SameShape(str[i], other[i])
    ensures Masked(str, seed) == Masked(other, seed)
  {
    MaskRunShape(str, other, InitialState(seed));
  }

  /** `randomChar`: one draw from `r`, picking a member of `cs`, upper-cased on request. */
  method RandomChar(r: Random, cs: string, uppercase: bool) returns (c: char)
    requires |cs| > 0
    modifies r
    ensures (c, r.state) == PickChar(old(r.state), cs, uppercase)
  {
    var k := r.NextInt(|cs|);
    c := cs[k];
    if uppercase {
      c := ToUpperCase(c);
    }
  }

  /** `mask`: rewrites a copy of the characters in place, drawing from a generator created from `seed`. */
  method Mask(str: string, seed: int) returns (masked: string)
    ensures masked == Masked(str, seed)
  {
    var r := new Random(seed);
    var data := new char[|str|](i requires 0 <= i < |str| => str[i]);
    for n := 0 to data.Length
      invariant data[..n] == MaskRun(str[..n], InitialState(seed)).0
      invariant forall j :: n <= j < data.Length ==> data[j] == str[j]
      invariant r.state == MaskRun(str[..n], InitialState(seed)).1
    {
      assert str[..n + 1][..n] == str[..n];
      ghost var before := r.state;
      var c := data[n];
      var ln := ToLowerCase(c);
      var out := c;
      if ln in CONSONANTS {
        out := RandomChar(r, CONSONANTS, ln != c);
      } else if ln in VOWELS {
        out := RandomChar(r, VOWELS, ln != c);
      } else if ln in DIGITS {
        out := RandomChar(r, DIGITS, ln != c);
      }
      MaskCharByBranches(c, before);
      data[n] := out;
    }
    assert str[..data.Length] == str;
    masked := data[..];
  }
}
