/**
 * The identifier classifier: which targets are national ID numbers (NIK),
 * which are Indonesian phone numbers, and the dispatch order between them.
 *
 * Both predicates are full-string matches of a regular expression built from
 * literals and the bounded repetition `\d{lo,hi}`; `DigitRun` is that
 * repetition, consumed one character at a time as a backtracking-free
 * matcher would.
 */
module Classifier {
  import opened Text

  /** Full match of `\d{lo,hi}` against `s`. */
  predicate DigitRun(s: string, lo: nat, hi: nat)
    decreases |s|
  {
    if s == [] then lo == 0
    else IsDigit(s[0]) && hi > 0 && DigitRun(s[1..], if lo == 0 then 0 else lo - 1, hi - 1)
  }

  /** `\d{lo,hi}` matches exactly the digit strings whose length lies in `lo..hi`. */
  lemma {:induction false} DigitRunMeaning(s: string, lo: nat, hi: nat)
    ensures DigitRun(s, lo, hi) <==> lo <= |s| <= hi && AllDigits(s)
    decreases |s|
  {
    if s != [] && hi > 0 {
      DigitRunMeaning(s[1..], if lo == 0 then 0 else lo - 1, hi - 1);
      if AllDigits(s) {
        assert AllDigits(s[1..]);
      } else if IsDigit(s[0]) && AllDigits(s[1..]) {
        forall i | 0 <= i < |s| ensures IsDigit(s[i]) {
          if i > 0 { assert s[i] == s[1..][i - 1]; }
        }
      }
    }
  }

  /** `re.fullmatch(r"\d{16}", s)`. */
  predicate IsNik(s: string) {
    DigitRun(s, 16, 16)
  }

  /** `re.fullmatch(r"(\+62\d{8,13}|08\d{8,13})", s)`. */
  predicate IsPhone(s: string) {
    || ("+62" <= s && DigitRun(s[3..], 8, 13))
    || ("08" <= s && DigitRun(s[2..], 8, 13))
  }

  /** What a target is dispatched as. */
  datatype Kind = NikTarget | PhoneTarget | UnknownTarget

  /** The NIK test comes first, then the phone test; anything else is unknown. */
  function Classify(t: string): (k: Kind)
    ensures k == NikTarget <==> |t| == 16 && AllDigits(t)
    ensures k == PhoneTarget <==> IsPhone(t) && !(|t| == 16 && AllDigits(t))
  {
    DigitRunMeaning(t, 16, 16);
    if IsNik(t) then NikTarget
    else if IsPhone(t) then PhoneTarget
    else UnknownTarget
  }

  lemma NikMeaning(s: string)
    ensures IsNik(s) <==> |s| == 16 && AllDigits(s)
  {
    DigitRunMeaning(s, 16, 16);
  }

  /**
   * A phone number is `+62` or `08` followed by 8 to 13 ASCII digits, and
   * every such string is one.
   */
  lemma PhoneMeaning(s: string)
    ensures IsPhone(s) ==> |s| >= 10 && (s[..3] == "+62" || s[..2] == "08") && 10 <= |s| <= 16
    ensures IsPhone(s) && s[0] == '+' ==> s[..3] == "+62" && 11 <= |s| <= 16 && AllDigits(s[3..])
    ensures IsPhone(s) && s[0] != '+' ==> s[..2] == "08" && 10 <= |s| <= 15 && AllDigits(s)
    ensures forall d :: 8 <= |d| <= 13 && AllDigits(d) ==> IsPhone("+62" + d) && IsPhone("08" + d)
  {
    if |s| >= 3 {
      DigitRunMeaning(s[3..], 8, 13);
    }
    if |s| >= 2 {
      DigitRunMeaning(s[2..], 8, 13);
    }
    if IsPhone(s) && s[0] != '+' {
      assert s[0] == '0' && s[1] == '8';
      forall i | 0 <= i < |s| ensures IsDigit(s[i]) {
        if i >= 2 { assert s[i] == s[2..][i - 2]; }
      }
    }
    forall d | 8 <= |d| <= 13 && AllDigits(d)
      ensures IsPhone("+62" + d) && IsPhone("08" + d)
    {
      PhoneForms(d);
    }
  }

  /** `+62` or `08` followed by 8 to 13 digits is a phone number. */
  lemma PhoneForms(d: string)
    requires 8 <= |d| <= 13 && AllDigits(d)
    ensures IsPhone("+62" + d) && IsPhone("08" + d)
  {
    assert ("+62" + d)[3..] == d;
    assert ("08" + d)[2..] == d;
    DigitRunMeaning(d, 8, 13);
  }

  /**
   * No string is both a NIK and a phone number, so the order of the two
   * tests in the dispatch does not change any classification.
   */
  lemma NikAndPhoneDisjoint(s: string)
    ensures !(IsNik(s) && IsPhone(s))
  {
    NikMeaning(s);
    PhoneMeaning(s);
  }

  /** The NIK of the program's usage line is classified as a NIK. */
  lemma NikExampleClassified()
    ensures Classify("3275124308050003") == NikTarget
  {
    assert AllDigits("3275124308050003");
  }

  /** The phone number of the program's usage line, `+62` then `81234567890`, is classified as a phone number. */
  lemma PhoneExampleClassified()
    ensures Classify("+62" + "81234567890") == PhoneTarget
  {
    var d := "81234567890";
    assert AllDigits(d);
    PhoneForms(d);
  }

  /** A free-text token is neither. */
  lemma TextExampleUnknown()
    ensures Classify("john.doe") == UnknownTarget
  {
    var s := "john.doe";
    PhoneMeaning(s);
    assert s[0] == 'j';
  }
}
